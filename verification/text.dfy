/** The string operations the filter and the sort rely on: lower-casing,
    substring search (`String.prototype.includes`) and the name comparator
    (`String.prototype.localeCompare`). Lower-casing is taken on ASCII
    letters only and the comparator as code-point lexicographic order. */
module Text {

  /** `toLowerCase` on one character, for the letters A to Z. */
  function LowerChar(c: char): char
  {
    if 'A' <= c <= 'Z' then (c as int - 'A' as int + 'a' as int) as char else c
  }

  /** `toLowerCase` on a whole string, character by character. */
  function Lower(s: string): string
  {
    seq(|s|, i requires 0 <= i < |s| => LowerChar(s[i]))
  }

  /** The inverse case change on one character, for the letters a to z. */
  function UpperChar(c: char): char
  {
    if 'a' <= c <= 'z' then (c as int - 'a' as int + 'A' as int) as char else c
  }

  /** Upper-casing one letter of a string does not change its lower-cased form. */
  lemma LowerOfUpperAt(s: string, i: nat)
    requires i < |s|
    ensures Lower(s[..i] + [UpperChar(s[i])] + s[i + 1..]) == Lower(s)
  {
    var t := s[..i] + [UpperChar(s[i])] + s[i + 1..];
    assert forall k :: 0 <= k < |s| && k != i ==> t[k] == s[k];
    assert LowerChar(t[i]) == LowerChar(s[i]);
  }

  /** `needle` occurs in `hay` starting at offset `i`. */
  ghost predicate OccursAt(needle: string, hay: string, i: int)
  {
    0 <= i && i + |needle| <= |hay| && hay[i..i + |needle|] == needle
  }

  /** An occurrence past the first character of `hay` is an occurrence in `hay[1..]`, one offset earlier. */
  lemma OccursInTail(needle: string, hay: string)
    requires |hay| > 0
    ensures forall i :: 1 <= i ==> (OccursAt(needle, hay, i) <==> OccursAt(needle, hay[1..], i - 1))
  {
    forall i | 1 <= i
      ensures OccursAt(needle, hay, i) <==> OccursAt(needle, hay[1..], i - 1)
    {
      if i + |needle| <= |hay| {
        assert hay[1..][i - 1..i - 1 + |needle|] == hay[i..i + |needle|];
      }
    }
  }

  /** `hay.includes(needle)`: true exactly when `needle` occurs somewhere in
      `hay`; the empty needle occurs everywhere. */
  function Includes(hay: string, needle: string): (r: bool)
    ensures r <==> exists i :: OccursAt(needle, hay, i)
    decreases |hay|
  {
    if |needle| > |hay| then
      false
    else if hay[..|needle|] == needle then
      assert OccursAt(needle, hay, 0);
      true
    else
      assert !OccursAt(needle, hay, 0);
      OccursInTail(needle, hay);
      var found := Includes(hay[1..], needle);
      assert found ==> exists i :: OccursAt(needle, hay, i) by {
        if found {
          var j :| OccursAt(needle, hay[1..], j);
          assert OccursAt(needle, hay, j + 1);
        }
      }
      found
  }

  /** `a.localeCompare(b)`: negative when `a` sorts first, zero when the two
      are the same string, positive when `b` sorts first. */
  function Compare(a: string, b: string): (r: int)
    ensures -1 <= r <= 1
    ensures r == 0 <==> a == b
  {
    if |a| == 0 && |b| == 0 then 0
    else if |a| == 0 then -1
    else if |b| == 0 then 1
    else if a[0] < b[0] then -1
    else if b[0] < a[0] then 1
    else
      var r := Compare(a[1..], b[1..]);
      assert a == [a[0]] + a[1..] && b == [b[0]] + b[1..];
      r
  }

  /** Swapping the operands negates the comparison. */
  lemma {:induction false} CompareFlip(a: string, b: string)
    ensures Compare(b, a) == -Compare(a, b)
    decreases |a|
  {
    if |a| > 0 && |b| > 0 && a[0] == b[0] {
      CompareFlip(a[1..], b[1..]);
    }
  }

  /** "Sorts no later than" is transitive. */
  lemma {:induction false} CompareTransitive(a: string, b: string, c: string)
    requires Compare(a, b) <= 0 && Compare(b, c) <= 0
    ensures Compare(a, c) <= 0
    decreases |a|
  {
    if |a| > 0 && |b| > 0 && |c| > 0 && a[0] == b[0] && b[0] == c[0] {
      CompareTransitive(a[1..], b[1..], c[1..]);
    }
  }
}
