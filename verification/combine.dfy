/** `combine`: every service bound to every endpoint, built eagerly into a
    two-level object `services × endpoints`. */
module Combine {
  import opened Wrappers
  import opened Records
  import opened Endpoints
  import opened CallFunctions

  type Matrix = Record<Record<CallFunction>>

  /** Each service, in the order given, mapped to the object holding one
      call function per endpoint, again in the order given. The entries of a
      well-formed object already have distinct keys, so rebuilding objects
      from them keeps every entry as it comes. */
  function CombineAll(services: Record<Service>, endpoints: Record<Endpoint>): (m: Matrix)
    ensures Keys(m) == Keys(services) && |m| == |services|
    ensures forall i :: 0 <= i < |m| ==> Keys(m[i].1) == Keys(endpoints) && |m[i].1| == |endpoints|
    ensures forall i, j :: 0 <= i < |m| && 0 <= j < |endpoints| ==>
      m[i].1[j] == (endpoints[j].0, CreateCallFunction(services[i].1, endpoints[j].1))
  {
    MapValues(services, (_, s) => Row(s, endpoints))
  }

  /** The row of one service: that service bound to each endpoint. */
  function Row(s: Service, endpoints: Record<Endpoint>): Record<CallFunction> {
    MapValues(endpoints, (_, e) => CreateCallFunction(s, e))
  }

  /** `combine(services, endpoints)[s][e]` is the call function of service
      `s` and endpoint `e`, for every pair of names, and is absent exactly
      when one of the names is not declared. */
  lemma CombineLookup(services: Record<Service>, endpoints: Record<Endpoint>, s: string, e: string)
    ensures Get(CombineAll(services, endpoints), s).Some? <==> Get(services, s).Some?
    ensures Get(services, s).Some? ==>
      Get(Get(CombineAll(services, endpoints), s).value, e)
      == if Get(endpoints, e).Some? then Some(CreateCallFunction(Get(services, s).value, Get(endpoints, e).value)) else None
  {
    GetMapValues(services, (_, sv) => Row(sv, endpoints), s);
    if Get(services, s).Some? {
      GetMapValues(endpoints, (_, ev) => CreateCallFunction(Get(services, s).value, ev), e);
    }
  }

  /** The matrix holds |services| × |endpoints| call functions. */
  function Size(m: Matrix): nat {
    if |m| == 0 then 0 else |m[0].1| + Size(m[1..])
  }

  lemma {:induction false} CombineSize(services: Record<Service>, endpoints: Record<Endpoint>)
    ensures Size(CombineAll(services, endpoints)) == |services| * |endpoints|
    decreases |services|
  {
    if |services| > 0 {
      var m := CombineAll(services, endpoints);
      assert m[1..] == CombineAll(services[1..], endpoints);
      CombineSize(services[1..], endpoints);
    }
  }
}
