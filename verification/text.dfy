/**
 String primitives the reconciliation passes are built from: substring search
 in the manner of Python's `str.find`, prefix tests in the manner of
 `str.startswith`, and a per-character lower-casing standing in for `str.lower`.
 */
module Text {

  /** `sub` occurs in `s` starting at index `i`. */
  predicate OccursAt(sub: string, s: string, i: int) {
    0 <= i && i + |sub| <= |s| && s[i..i + |sub|] == sub
  }

  /** `sub` is a contiguous substring of `s`. */
  ghost predicate IsSubstring(sub: string, s: string) {
    exists i :: OccursAt(sub, s, i)
  }

  /** `s.startswith(p)`. */
  predicate IsPrefix(p: string, s: string) {
    |p| <= |s| && s[..|p|] == p
  }

  /** The lowest index at or after `start` where `sub` occurs in `s`, or -1. */
  function FindFrom(s: string, sub: string, start: nat): (r: int)
    requires start <= |s|
    ensures r == -1 || (start <= r && OccursAt(sub, s, r))
    ensures r == -1 ==> forall j :: start <= j ==> !OccursAt(sub, s, j)
    ensures r >= 0 ==> forall j :: start <= j < r ==> !OccursAt(sub, s, j)
    decreases |s| - start
  {
    if start + |sub| > |s| then -1
    else if s[start..start + |sub|] == sub then start
    else FindFrom(s, sub, start + 1)
  }

  /** `s.find(sub)`: the lowest index of an occurrence of `sub` in `s`, or -1
      when there is none. The empty string occurs at index 0 of every string. */
  function Find(s: string, sub: string): (r: int)
    ensures r == -1 <==> !IsSubstring(sub, s)
    ensures r != -1 ==> OccursAt(sub, s, r) && forall j :: 0 <= j < r ==> !OccursAt(sub, s, j)
  {
    FindFrom(s, sub, 0)
  }

  /** `s.find(sub) > -1`, the test both fuzzy passes use. */
  function Contains(s: string, sub: string): (r: bool)
    ensures r <==> IsSubstring(sub, s)
  {
    Find(s, sub) > -1
  }

  /** Lower-casing of one character: ASCII capitals map to their small letters,
      every other character is left alone. */
  function LowerChar(c: char): char {
    if 'A' <= c <= 'Z' then (c as int - 'A' as int + 'a' as int) as char else c
  }

  /** `s.lower()`, as a length-preserving per-character map. */
  function Lower(s: string): (r: string)
    ensures |r| == |s|
  {
    if |s| == 0 then [] else [LowerChar(s[0])] + Lower(s[1..])
  }

  /** Each character of the lowered string is the lowered character. */
  lemma {:induction false} LowerAt(s: string, i: int)
    requires 0 <= i < |s|
    ensures Lower(s)[i] == LowerChar(s[i])
    decreases |s|
  {
    if i > 0 {
      LowerAt(s[1..], i - 1);
    }
  }

  /** Lowering twice is lowering once. */
  lemma {:induction false} LowerIdempotent(s: string)
    ensures Lower(Lower(s)) == Lower(s)
  {
    forall k | 0 <= k < |s|
      ensures Lower(Lower(s))[k] == Lower(s)[k]
    {
      LowerAt(s, k);
      LowerAt(Lower(s), k);
    }
  }

  /** An occurrence survives lower-casing both sides, at the same index. */
  lemma LowerOccursAt(sub: string, s: string, i: int)
    requires OccursAt(sub, s, i)
    ensures OccursAt(Lower(sub), Lower(s), i)
  {
    var ls, lsub := Lower(s), Lower(sub);
    forall k | 0 <= k < |sub|
      ensures ls[i..i + |sub|][k] == lsub[k]
    {
      LowerAt(s, i + k);
      LowerAt(sub, k);
      assert s[i..i + |sub|][k] == s[i + k];
    }
    assert ls[i..i + |sub|] == lsub;
  }

  /** A substring stays a substring after lower-casing both sides. */
  lemma LowerSubstring(sub: string, s: string)
    requires IsSubstring(sub, s)
    ensures IsSubstring(Lower(sub), Lower(s))
  {
    var i :| OccursAt(sub, s, i);
    LowerOccursAt(sub, s, i);
  }

  /** The converse of LowerSubstring fails: "a" is not a substring of "A",
      but their lowered forms coincide. */
  lemma LowerSubstringNotConverse()
    ensures !IsSubstring("a", "A") && IsSubstring(Lower("a"), Lower("A"))
  {
    assert OccursAt(Lower("a"), Lower("A"), 0);
  }

  /** Every string is a substring of itself. */
  lemma SubstringReflexive(s: string)
    ensures IsSubstring(s, s)
  {
    assert OccursAt(s, s, 0);
  }
}
