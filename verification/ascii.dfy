/**
 The two string primitives the watchlist search uses: lower-casing
 (`toLowerCase`, restricted here to the ASCII letters) and substring
 containment (`includes`).
 */
module Ascii {

  predicate IsUpper(c: char) {
    'A' <= c <= 'Z'
  }

  /** True when `s` has no ASCII upper-case letter. */
  predicate IsLowerCased(s: string) {
    forall i :: 0 <= i < |s| ==> !IsUpper(s[i])
  }

  /** Maps 'A'..'Z' to 'a'..'z' and leaves every other character alone. */
  function LowerChar(c: char): (r: char)
    ensures !IsUpper(r)
    ensures !IsUpper(c) ==> r == c
    ensures IsUpper(c) ==> 'a' <= r <= 'z' && r as int - c as int == 'a' as int - 'A' as int
  {
    if IsUpper(c) then (c as int - 'A' as int + 'a' as int) as char else c
  }

  /** The string with every ASCII upper-case letter replaced by its lower-case form. */
  function ToLower(s: string): (r: string)
    ensures |r| == |s|
    ensures IsLowerCased(r)
    ensures forall i :: 0 <= i < |s| ==> r[i] == LowerChar(s[i])
  {
    seq(|s|, i requires 0 <= i < |s| => LowerChar(s[i]))
  }

  /** A string without upper-case letters is its own lower-case form. */
  lemma ToLowerFixesLowerCased(s: string)
    requires IsLowerCased(s)
    ensures ToLower(s) == s
  {
  }

  /** Lower-casing twice is lower-casing once. */
  lemma ToLowerIdempotent(s: string)
    ensures ToLower(ToLower(s)) == ToLower(s)
  {
    ToLowerFixesLowerCased(ToLower(s));
  }

  /** `p` occurs in `s` starting at position `i`. */
  ghost predicate OccursAt(s: string, p: string, i: int) {
    0 <= i && i + |p| <= |s| && s[i..i + |p|] == p
  }

  /**
   `includes`: whether `p` occurs somewhere in `s`. The empty string occurs
   in every string, at position 0.
   */
  function Contains(s: string, p: string): (r: bool)
    ensures r <==> exists i :: OccursAt(s, p, i)
    decreases |s|
  {
    if |p| <= |s| && s[..|p|] == p then
      assert OccursAt(s, p, 0);
      true
    else if |s| == 0 then
      assert forall i :: !OccursAt(s, p, i);
      false
    else
      OccursInTail(s, p);
      Contains(s[1..], p)
  }

  /** Past position 0, the occurrences of `p` in `s` are those in `s` without its first character. */
  lemma OccursInTail(s: string, p: string)
    requires |s| > 0
    ensures (exists i :: OccursAt(s[1..], p, i)) <==> (exists i :: 1 <= i && OccursAt(s, p, i))
  {
    if i :| OccursAt(s[1..], p, i) {
      assert s[1..][i..i + |p|] == s[i + 1..i + 1 + |p|];
      assert OccursAt(s, p, i + 1);
    }
    if i :| 1 <= i && OccursAt(s, p, i) {
      assert s[1..][i - 1..i - 1 + |p|] == s[i..i + |p|];
      assert OccursAt(s[1..], p, i - 1);
    }
  }

  /** Every string contains the empty string. */
  lemma ContainsEmpty(s: string)
    ensures Contains(s, "")
  {
    assert OccursAt(s, "", 0);
  }

  /** A string contains each of its own substrings. */
  lemma ContainsSlice(s: string, i: int, j: int)
    requires 0 <= i <= j <= |s|
    ensures Contains(s, s[i..j])
  {
    assert OccursAt(s, s[i..j], i);
  }

  /** A string containing a non-empty `p` contains `p`'s first character. */
  lemma ContainsHasFirstChar(s: string, p: string)
    requires |p| > 0
    ensures Contains(s, p) ==> p[0] in s
  {
    if Contains(s, p) {
      var i :| OccursAt(s, p, i);
      assert s[i] == s[i..i + |p|][0];
    }
  }
}
