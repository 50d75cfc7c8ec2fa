/**
 * The two JavaScript string operations the frontend's badge classification uses:
 * `String.prototype.toLowerCase` and `String.prototype.includes`.
 */
module JsText {

  /** Lower-cases one character; only the ASCII letters A-Z are mapped. */
  function LowerChar(c: char): (l: char)
    ensures 'A' <= c <= 'Z' ==> 'a' <= l <= 'z' && l as int == c as int + 32
    ensures !('A' <= c <= 'Z') ==> l == c
  {
    if 'A' <= c <= 'Z' then (c as int + 32) as char else c
  }

  /** `s.toLowerCase()`, character by character. */
  function ToLowerCase(s: string): (r: string)
    ensures |r| == |s|
    ensures forall i :: 0 <= i < |s| ==> r[i] == LowerChar(s[i])
  {
    if s == [] then [] else [LowerChar(s[0])] + ToLowerCase(s[1..])
  }

  /** `t` occurs in `s` starting at index `k`. */
  predicate OccursAt(s: string, t: string, k: int)
  {
    0 <= k && k + |t| <= |s| && s[k..k + |t|] == t
  }

  /** `s.includes(t)`, searching from index `from` onwards. */
  function IncludesFrom(s: string, t: string, from: nat): (found: bool)
    decreases |s| - from
    ensures found <==> exists k :: from <= k && OccursAt(s, t, k)
  {
    if from + |t| > |s| then false
    else if s[from..from + |t|] == t then
      assert OccursAt(s, t, from);
      true
    else
      var found := IncludesFrom(s, t, from + 1);
      assert forall k :: OccursAt(s, t, k) && from <= k ==> k == from || from + 1 <= k;
      found
  }

  /** `s.includes(t)`. */
  function Includes(s: string, t: string): (found: bool)
    ensures found <==> exists k :: OccursAt(s, t, k)
  {
    IncludesFrom(s, t, 0)
  }
}
