/**
 Strings as sequences of Unicode scalar values, and the three string
 operations the inventory needs: the order `ORDER BY name` sorts by, the
 lower-casing the search box applies, and substring search.
 */
module Strings {

  /** Lexicographic order on code points, shorter prefix first.  On UTF-8
      text this is the order of a byte-wise comparison. */
  predicate LexLe(a: string, b: string)
    decreases |a|
  {
    |a| == 0 || (|b| > 0 && (a[0] < b[0] || (a[0] == b[0] && LexLe(a[1..], b[1..]))))
  }

  lemma {:induction false} LexLeReflexive(a: string)
    ensures LexLe(a, a)
    decreases |a|
  {
    if |a| > 0 {
      LexLeReflexive(a[1..]);
    }
  }

  lemma {:induction false} LexLeTotal(a: string, b: string)
    ensures LexLe(a, b) || LexLe(b, a)
    decreases |a|
  {
    if |a| > 0 && |b| > 0 && a[0] == b[0] {
      LexLeTotal(a[1..], b[1..]);
    }
  }

  lemma {:induction false} LexLeTransitive(a: string, b: string, c: string)
    requires LexLe(a, b) && LexLe(b, c)
    ensures LexLe(a, c)
    decreases |a|
  {
    if |a| > 0 && a[0] == b[0] && b[0] == c[0] {
      LexLeTransitive(a[1..], b[1..], c[1..]);
    }
  }

  lemma {:induction false} LexLeAntisymmetric(a: string, b: string)
    requires LexLe(a, b) && LexLe(b, a)
    ensures a == b
    decreases |a|
  {
    if |a| > 0 {
      LexLeAntisymmetric(a[1..], b[1..]);
      assert a == [a[0]] + a[1..];
      assert b == [b[0]] + b[1..];
    }
  }

  predicate IsUpper(c: char) {
    'A' <= c <= 'Z'
  }

  /** ASCII lower-casing of one character; every other character is kept. */
  function LowerChar(c: char): char {
    if IsUpper(c) then (c as int + 32) as char else c
  }

  /** ASCII lower-casing of a string, character by character. */
  function Lower(s: string): (r: string)
    ensures |r| == |s|
    ensures forall i :: 0 <= i < |s| ==> r[i] == LowerChar(s[i])
    decreases |s|
  {
    if |s| == 0 then "" else [LowerChar(s[0])] + Lower(s[1..])
  }

  predicate StartsWith(s: string, prefix: string) {
    |prefix| <= |s| && s[..|prefix|] == prefix
  }

  /** `hay.includes(needle)`: try every start position from the left. */
  predicate Includes(hay: string, needle: string)
    decreases |hay|
  {
    StartsWith(hay, needle) || (|hay| > 0 && Includes(hay[1..], needle))
  }

  /** `needle` occurs in `hay` starting at position `i`. */
  ghost predicate OccursAt(hay: string, needle: string, i: int) {
    0 <= i <= |hay| - |needle| && hay[i..i + |needle|] == needle
  }

  /** Reference definition: `needle` occurs at some position of `hay`. */
  ghost predicate Substring(needle: string, hay: string) {
    exists i :: OccursAt(hay, needle, i)
  }

  /** An occurrence found by `Includes` is a real occurrence. */
  lemma {:induction false} IncludesOccurs(hay: string, needle: string)
    requires Includes(hay, needle)
    ensures Substring(needle, hay)
    decreases |hay|
  {
    if StartsWith(hay, needle) {
      assert OccursAt(hay, needle, 0);
    } else {
      IncludesOccurs(hay[1..], needle);
      var i :| OccursAt(hay[1..], needle, i);
      assert hay[1..][i..i + |needle|] == hay[i + 1..i + 1 + |needle|];
      assert OccursAt(hay, needle, i + 1);
    }
  }

  /** `Includes` finds every occurrence. */
  lemma {:induction false} OccursIncludes(hay: string, needle: string, i: int)
    requires OccursAt(hay, needle, i)
    ensures Includes(hay, needle)
    decreases |hay|
  {
    if i > 0 {
      assert hay[1..][i - 1..i - 1 + |needle|] == hay[i..i + |needle|];
      OccursIncludes(hay[1..], needle, i - 1);
    } else {
      assert StartsWith(hay, needle);
    }
  }

  lemma IncludesIsSubstring(hay: string, needle: string)
    ensures Includes(hay, needle) <==> Substring(needle, hay)
  {
    if Includes(hay, needle) {
      IncludesOccurs(hay, needle);
    }
    if Substring(needle, hay) {
      var i :| OccursAt(hay, needle, i);
      OccursIncludes(hay, needle, i);
    }
  }
}
