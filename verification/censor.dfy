/** `censorAuthorizationHeader`: before request headers are logged, the
    credentials of the `Authorization` header are masked, keeping the scheme,
    the space after it and the first two credential characters. Headers are a
    plain string map here; the case-insensitive matching of header names is
    not modelled. */
module Censor {
  import opened Wrappers
  import opened Records
  import Text

  const AuthorizationHeader: string := "Authorization"
  const Mask: char := '*'

  /** How many leading characters survive: up to and including the second
      character after the first space, or the first two when there is no
      space, never more than the whole value. */
  function KeptLength(s: string): (n: nat)
    ensures n <= |s|
    ensures ' ' !in s ==> n == if |s| < 2 then |s| else 2
    ensures ' ' in s ==> n <= |s| && n > 0 && ' ' in s[..n]
    ensures ' ' in s ==> n == if Text.IndexOf(s, ' ') + 3 <= |s| then Text.IndexOf(s, ' ') + 3 else |s|
  {
    var p := Text.IndexOf(s, ' ');
    if p + 3 > |s| then |s| else p + 3
  }

  /** The text up to two characters past the first space, padded with `*`
      to the original length. */
  function CensorValue(s: string): (r: string)
    ensures |r| == |s|
    ensures r[..KeptLength(s)] == s[..KeptLength(s)]
    ensures forall i :: KeptLength(s) <= i < |r| ==> r[i] == Mask
  {
    var spacePos := Text.IndexOf(s, ' ');
    Text.PadEnd(Text.Substring(s, 0, spacePos + 3), |s|, Mask)
  }

  /** A value is masked from the first character after its kept prefix:
      masking never reveals more and the mask character never moves the
      first space, so masking a masked value changes nothing. */
  lemma CensorValueIdempotent(s: string)
    ensures CensorValue(CensorValue(s)) == CensorValue(s)
  {
    var r := CensorValue(s);
    var n := KeptLength(s);
    assert KeptLength(r) == n by {
      var p := Text.IndexOf(s, ' ');
      if p >= 0 {
        assert r[..n][p] == ' ';
        assert r[..p] == s[..p];
        assert Text.IndexOf(r, ' ') == p by {
          assert ' ' !in r[..p];
        }
      } else {
        assert ' ' !in r by {
          forall i | 0 <= i < |r| ensures r[i] != ' ' {
            if i < n { assert r[i] == r[..n][i] == s[..n][i]; }
          }
        }
      }
    }
    var rr := CensorValue(r);
    assert rr == r by {
      assert |rr| == |r|;
      forall i | 0 <= i < |r| ensures rr[i] == r[i] {
        if i < n { assert rr[i] == rr[..n][i] == r[..n][i]; }
      }
    }
  }

  /** `censorAuthorizationHeader(headers)`: headers without `Authorization`
      come back as they are; otherwise a copy whose `Authorization` value is
      masked and whose other headers are untouched. */
  function CensorHeaders(headers: Record<string>): (r: Record<string>)
    ensures AuthorizationHeader !in Keys(headers) ==> r == headers
    ensures Keys(r) == Keys(headers)
    ensures AuthorizationHeader in Keys(headers) ==>
      Get(r, AuthorizationHeader) == Some(CensorValue(Get(headers, AuthorizationHeader).value))
    ensures forall k :: k != AuthorizationHeader ==> Get(r, k) == Get(headers, k)
  {
    match Get(headers, AuthorizationHeader)
    case None => headers
    case Some(auth) => Assign(headers, AuthorizationHeader, CensorValue(auth))
  }

  /** Censoring is a length-preserving, idempotent transform of the headers. */
  lemma CensorHeadersIdempotent(headers: Record<string>)
    ensures CensorHeaders(CensorHeaders(headers)) == CensorHeaders(headers)
  {
    var r := CensorHeaders(headers);
    if AuthorizationHeader in Keys(headers) {
      var v := Get(headers, AuthorizationHeader).value;
      CensorValueIdempotent(v);
      AssignSame(r, AuthorizationHeader);
    }
  }

  /** A masked value is its kept prefix followed by one `*` per remaining
      character. */
  lemma CensorValueShape(s: string)
    ensures CensorValue(s) == s[..KeptLength(s)] + seq(|s| - KeptLength(s), _ => Mask)
  {
    var n := KeptLength(s);
    var r := CensorValue(s);
    var expected := s[..n] + seq(|s| - n, _ => Mask);
    forall i | 0 <= i < |r| ensures r[i] == expected[i] {
      if i < n { assert r[i] == r[..n][i]; }
    }
  }

  /** In `"Bearer abcdef"` the scheme, the space and two credential
      characters survive. */
  lemma BearerKeptLength()
    ensures KeptLength("Bearer abcdef") == 9
  {
    var s := "Bearer abcdef";
    assert Text.IndexOf(s, ' ') == 6 by {
      assert s[6] == ' ';
      assert ' ' !in s[..6];
    }
  }

  /** The example of a Bearer token: `"Bearer abcdef"` is logged as
      `"Bearer ab****"`. */
  lemma CensorBearerExample()
    ensures CensorValue("Bearer abcdef") == "Bearer ab****"
  {
    BearerMaskedTail();
    BearerPieces();
  }

  lemma BearerPieces()
    ensures "Bearer abcdef"[..9] + seq(4, _ => Mask) == "Bearer ab****"
  {
    assert "Bearer abcdef"[..9] == "Bearer ab";
    assert seq(4, _ => Mask) == "****";
  }

  lemma BearerMaskedTail()
    ensures CensorValue("Bearer abcdef") == "Bearer abcdef"[..9] + seq(4, _ => Mask)
  {
    BearerKeptLength();
    CensorValueShape("Bearer abcdef");
  }
}
