/**
  The part of ECMAScript's `String.prototype.slice(start, end)` that the badge
  formatter uses: integer arguments, where a negative argument counts back
  from the end of the string and every argument is clamped into `[0, |s|]`.
 */
module JsString {

  /** Where a relative `slice` argument lands in a string of length `len`. */
  function RelativeIndex(i: int, len: nat): (r: nat)
    ensures r <= len
    ensures 0 <= i <= len ==> r == i
    ensures i < 0 && 0 <= len + i ==> r == len + i
  {
    if i < 0 then (if len + i < 0 then 0 else len + i)
    else if i > len then len
    else i
  }

  /** `s.slice(start, end)`: the characters from the start position up to, not
      including, the end position, or the empty string when they cross. */
  function Slice(s: string, start: int, end: int): (r: string)
    ensures var from, to := RelativeIndex(start, |s|), RelativeIndex(end, |s|);
      |r| == (if from < to then to - from else 0)
      && forall j :: 0 <= j < |r| ==> r[j] == s[from + j]
  {
    var from, to := RelativeIndex(start, |s|), RelativeIndex(end, |s|);
    if from < to then s[from..to] else []
  }
}
