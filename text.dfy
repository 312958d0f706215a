/**
 * The string operations the list views rely on: `toLowerCase`, `includes`
 * and the comparison the sort uses in place of `localeCompare`.
 */
module Text {

  /** `toLowerCase` on one character; only the ASCII letters A-Z are mapped. */
  function LowerChar(c: char): char
  {
    if 'A' <= c <= 'Z' then (c as int - 'A' as int + 'a' as int) as char else c
  }

  /** `toLowerCase` on a string, character by character. */
  function Lower(s: string): (r: string)
    ensures |r| == |s|
  {
    seq(|s|, i requires 0 <= i < |s| => LowerChar(s[i]))
  }

  /** The needle occurs in the haystack starting at index i. */
  predicate OccursAt(haystack: string, needle: string, i: int)
  {
    0 <= i && i + |needle| <= |haystack| && haystack[i..i + |needle|] == needle
  }

  /** `haystack.includes(needle)`: the needle is a prefix here, or occurs further on. */
  predicate Contains(haystack: string, needle: string)
    decreases |haystack|
  {
    (|needle| <= |haystack| && haystack[..|needle|] == needle)
    || (|haystack| > 0 && Contains(haystack[1..], needle))
  }

  /** An occurrence found by the recursive search is an occurrence at some index. */
  lemma {:induction false} ContainsHasOccurrence(haystack: string, needle: string)
    requires Contains(haystack, needle)
    ensures exists i :: OccursAt(haystack, needle, i)
    decreases |haystack|
  {
    if |needle| <= |haystack| && haystack[..|needle|] == needle {
      assert OccursAt(haystack, needle, 0);
    } else {
      var tail := haystack[1..];
      ContainsHasOccurrence(tail, needle);
      var j :| OccursAt(tail, needle, j);
      assert tail[j..j + |needle|] == haystack[j + 1..j + 1 + |needle|];
      assert OccursAt(haystack, needle, j + 1);
    }
  }

  /** An occurrence at index i is found by the recursive search. */
  lemma {:induction false} OccurrenceIsContained(haystack: string, needle: string, i: int)
    requires OccursAt(haystack, needle, i)
    ensures Contains(haystack, needle)
    decreases i
  {
    if i > 0 {
      var tail := haystack[1..];
      assert tail[i - 1..i - 1 + |needle|] == haystack[i..i + |needle|];
      OccurrenceIsContained(tail, needle, i - 1);
    } else {
      assert haystack[..|needle|] == haystack[i..i + |needle|];
    }
  }

  /** The recursive search finds the needle exactly when it occurs at some index. */
  lemma ContainsIffOccurs(haystack: string, needle: string)
    ensures Contains(haystack, needle) <==> exists i :: OccursAt(haystack, needle, i)
  {
    if Contains(haystack, needle) {
      ContainsHasOccurrence(haystack, needle);
    }
    if i :| OccursAt(haystack, needle, i) {
      OccurrenceIsContained(haystack, needle, i);
    }
  }

  /** Every string contains the empty string, so an empty search matches everything. */
  lemma {:induction false} ContainsEmpty(haystack: string)
    ensures Contains(haystack, "")
  {
    assert haystack[..0] == "";
  }

  /** `a.toLowerCase().includes(b.toLowerCase())`. */
  predicate ContainsIgnoringCase(haystack: string, needle: string)
  {
    Contains(Lower(haystack), Lower(needle))
  }

  /** An exact occurrence is also a case-insensitive one. */
  lemma ContainsIgnoringCaseOfExact(haystack: string, needle: string)
    requires Contains(haystack, needle)
    ensures ContainsIgnoringCase(haystack, needle)
  {
    ContainsIffOccurs(haystack, needle);
    var i :| OccursAt(haystack, needle, i);
    assert Lower(haystack)[i..i + |needle|] == Lower(needle);
    assert OccursAt(Lower(haystack), Lower(needle), i);
    ContainsIffOccurs(Lower(haystack), Lower(needle));
  }

  /**
   * `a <= b` in lexicographic order of character codes. It stands in for
   * `a.localeCompare(b) <= 0`, whose collation depends on the locale.
   */
  predicate Leq(a: string, b: string)
    decreases |a|
  {
    |a| == 0 || (|b| > 0 && (a[0] < b[0] || (a[0] == b[0] && Leq(a[1..], b[1..]))))
  }

  lemma {:induction false} LeqReflexive(a: string)
    ensures Leq(a, a)
  {
    if |a| > 0 {
      LeqReflexive(a[1..]);
    }
  }

  lemma {:induction false} LeqTotal(a: string, b: string)
    ensures Leq(a, b) || Leq(b, a)
  {
    if |a| > 0 && |b| > 0 && a[0] == b[0] {
      LeqTotal(a[1..], b[1..]);
    }
  }

  lemma {:induction false} LeqTransitive(a: string, b: string, c: string)
    requires Leq(a, b) && Leq(b, c)
    ensures Leq(a, c)
  {
    if |a| > 0 && a[0] == b[0] && b[0] == c[0] {
      LeqTransitive(a[1..], b[1..], c[1..]);
    }
  }

  lemma {:induction false} LeqAntisymmetric(a: string, b: string)
    requires Leq(a, b) && Leq(b, a)
    ensures a == b
  {
    if |a| > 0 {
      LeqAntisymmetric(a[1..], b[1..]);
      assert a == [a[0]] + a[1..];
      assert b == [b[0]] + b[1..];
    }
  }
}
