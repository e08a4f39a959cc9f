/**
 * The two string operations the title search relies on:
 * `String.prototype.toLowerCase` (restricted to ASCII) and
 * `String.prototype.includes` (substring test).
 */
module Text {

  /** Lower-cases one character; only the ASCII capitals 'A'..'Z' change. */
  function LowerChar(c: char): (r: char)
    ensures !('A' <= r <= 'Z')
    ensures 'A' <= c <= 'Z' || r == c
    ensures 'A' <= c <= 'Z' ==> r as int - c as int == 'a' as int - 'A' as int
  {
    if 'A' <= c <= 'Z' then (c as int - 'A' as int + 'a' as int) as char else c
  }

  /** `s.toLowerCase()`, character by character. */
  function ToLower(s: string): (r: string)
    ensures |r| == |s|
    ensures forall i :: 0 <= i < |s| ==> r[i] == LowerChar(s[i])
    ensures forall i :: 0 <= i < |r| ==> !('A' <= r[i] <= 'Z')
  {
    seq(|s|, i requires 0 <= i < |s| => LowerChar(s[i]))
  }

  /** Lower-casing a string that is already lower-cased changes nothing. */
  lemma ToLowerIdempotent(s: string)
    ensures ToLower(ToLower(s)) == ToLower(s)
  {
  }

  /** `t` occurs in `s` starting at index `i`. */
  predicate OccursAt(s: string, t: string, i: int)
  {
    0 <= i && i + |t| <= |s| && s[i..i + |t|] == t
  }

  /** `s.includes(t)`: some position of `s` starts an occurrence of `t`. */
  predicate Includes(s: string, t: string): (r: bool)
    ensures r ==> |t| <= |s|
    ensures r ==> forall k :: 0 <= k < |t| ==> t[k] in s
  {
    exists i :: 0 <= i <= |s| - |t| && OccursAt(s, t, i)
  }

  /** Every string includes the empty string (it occurs at position 0). */
  lemma IncludesEmpty(s: string)
    ensures Includes(s, "")
  {
    assert OccursAt(s, "", 0);
  }
}
