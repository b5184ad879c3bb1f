/** The string-shortening helpers used to bound an `IotsParseError`'s display
    text. The ellipsis `…` (U+2026) is a single UTF-16 code unit. */
module Crop {

  const Ellipsis: char := '…'

  /** `cropStringEnd(maxLength, s)`: keeps the first `maxLength` characters
      and marks the cut with a trailing ellipsis. */
  function CropEnd(maxLength: nat, s: string): (r: string)
    ensures |s| <= maxLength ==> r == s
    ensures |s| > maxLength ==>
      |r| == maxLength + 1 && r[..maxLength] == s[..maxLength] && r[maxLength] == Ellipsis
    ensures |r| <= maxLength + 1
  {
    if |s| > maxLength then s[..maxLength] + [Ellipsis] else s
  }

  /** Cropping twice at the same length crops once: a cropped string is never
      cut again, it is only re-checked. */
  lemma CropEndIdempotent(maxLength: nat, s: string)
    ensures CropEnd(maxLength, CropEnd(maxLength, s)) == CropEnd(maxLength, s)
  {
    if |s| > maxLength {
      var r := CropEnd(maxLength, s);
      assert r[..maxLength] + [Ellipsis] == r;
    }
  }

  /** `cropStringStart(maxLength, s)` as written: when `s` is too long it
      DROPS the first `maxLength` characters and keeps everything after them,
      behind a leading ellipsis. */
  function CropStart(maxLength: nat, s: string): (r: string)
    ensures |s| <= maxLength ==> r == s
    ensures |s| > maxLength ==>
      |r| == |s| - maxLength + 1 && r[0] == Ellipsis && r[1..] == s[maxLength..]
  {
    if |s| > maxLength then [Ellipsis] + s[maxLength..] else s
  }

  /** What `cropStringStart` shows of a long string is a suffix of it, so it
      never invents text. */
  lemma CropStartShowsSuffix(maxLength: nat, s: string)
    requires |s| > maxLength
    ensures CropStart(maxLength, s)[1..] == s[|s| - (|CropStart(maxLength, s)| - 1)..]
  {
  }

  /** The result of `cropStringStart` is not bounded by `maxLength + 1`:
      a string of `2 * maxLength + 2` characters comes back with
      `maxLength + 3` of them. */
  lemma CropStartUnbounded(maxLength: nat)
    ensures var s := seq(2 * maxLength + 2, _ => 'a');
            |CropStart(maxLength, s)| == maxLength + 3
  {
  }

  /** A 51-character path cropped at 50 keeps only its last character. */
  lemma CropStartKeepsTooLittle()
    ensures var s := seq(50, _ => 'a') + ['z'];
            CropStart(50, s) == [Ellipsis, 'z']
  {
    var s := seq(50, _ => 'a') + ['z'];
    assert s[50..] == ['z'];
  }

  /** The evidently intended `cropStringStart`: keep the LAST `maxLength`
      characters behind a leading ellipsis. */
  function CropStartKeepingTail(maxLength: nat, s: string): (r: string)
    ensures |s| <= maxLength ==> r == s
    ensures |s| > maxLength ==>
      |r| == maxLength + 1 && r[0] == Ellipsis && r[1..] == s[|s| - maxLength..]
    ensures |r| <= maxLength + 1
  {
    if |s| > maxLength then [Ellipsis] + s[|s| - maxLength..] else s
  }

  /** Cropping the tail twice is cropping it once. */
  lemma CropStartKeepingTailIdempotent(maxLength: nat, s: string)
    ensures CropStartKeepingTail(maxLength, CropStartKeepingTail(maxLength, s))
         == CropStartKeepingTail(maxLength, s)
  {
  }

  /** The two versions agree on every string that needs no cropping, and on
      a string that is too long they show the same number of characters only
      when it is exactly `2 * maxLength` long. */
  lemma CropStartVersionsAgree(maxLength: nat, s: string)
    ensures |s| <= maxLength ==> CropStart(maxLength, s) == CropStartKeepingTail(maxLength, s)
    ensures |s| > maxLength ==>
      (|CropStart(maxLength, s)| == |CropStartKeepingTail(maxLength, s)| <==> |s| == 2 * maxLength)
  {
  }
}
