/**
 * `Array.prototype.sort` with a comparator on a string key. The sort of the
 * JavaScript engines is stable; here it is an insertion sort that places each
 * element before the first element whose key is not smaller.
 */
module Sorting {
  import opened Text
  import opened Seqs

  /** Keys are in non-decreasing order, for every pair of positions. */
  predicate SortedBy<T>(s: seq<T>, key: T -> string)
  {
    forall i, j :: 0 <= i < j < |s| ==> Leq(key(s[i]), key(s[j]))
  }

  /** Inserts x before the first element whose key is at least x's. */
  function Insert<T>(x: T, s: seq<T>, key: T -> string): (r: seq<T>)
    ensures multiset(r) == multiset(s) + multiset{x}
    ensures SortedBy(s, key) ==> SortedBy(r, key)
    decreases |s|
  {
    if |s| == 0 then [x]
    else if Leq(key(x), key(s[0])) then
      InsertAtFront(x, s, key);
      [x] + s
    else
      var rest := Insert(x, s[1..], key);
      InsertBehind(x, s, key, rest);
      assert s == [s[0]] + s[1..];
      [s[0]] + rest
  }

  /** x belongs in front of a sorted list whose head it does not exceed. */
  lemma InsertAtFront<T>(x: T, s: seq<T>, key: T -> string)
    requires |s| > 0 && Leq(key(x), key(s[0]))
    ensures SortedBy(s, key) ==> SortedBy([x] + s, key)
  {
    if SortedBy(s, key) {
      var r := [x] + s;
      forall i, j | 0 <= i < j < |r|
        ensures Leq(key(r[i]), key(r[j]))
      {
        if i == 0 && j > 1 {
          LeqTransitive(key(x), key(s[0]), key(s[j - 1]));
        }
      }
    }
  }

  /** The head of a sorted list stays in front when x, which exceeds it, is inserted into its tail. */
  lemma InsertBehind<T>(x: T, s: seq<T>, key: T -> string, rest: seq<T>)
    requires |s| > 0 && !Leq(key(x), key(s[0]))
    requires multiset(rest) == multiset(s[1..]) + multiset{x}
    requires SortedBy(s[1..], key) ==> SortedBy(rest, key)
    ensures SortedBy(s, key) ==> SortedBy([s[0]] + rest, key)
  {
    if SortedBy(s, key) {
      LeqTotal(key(x), key(s[0]));
      var r := [s[0]] + rest;
      forall i, j | 0 <= i < j < |r|
        ensures Leq(key(r[i]), key(r[j]))
      {
        if i == 0 {
          var y := rest[j - 1];
          assert y in multiset(rest);
          if y != x {
            assert y in multiset(s[1..]);
            var k :| 0 <= k < |s[1..]| && s[1..][k] == y;
            assert s[k + 1] == y;
          }
        }
      }
    }
  }

  /** The input sorted by key, stably. */
  function SortBy<T>(s: seq<T>, key: T -> string): (r: seq<T>)
    ensures multiset(r) == multiset(s)
    ensures SortedBy(r, key)
    decreases |s|
  {
    if |s| == 0 then []
    else
      assert s == [s[0]] + s[1..];
      Insert(s[0], SortBy(s[1..], key), key)
  }

  /**
   * Inserting x changes the elements whose key is k only by x itself, which
   * lands in front of all of them.
   */
  lemma {:induction false} InsertKeepsKeyOrder<T>(x: T, s: seq<T>, key: T -> string, hasKey: T -> bool, k: string)
    requires forall y :: hasKey(y) <==> key(y) == k
    ensures Keep(Insert(x, s, key), hasKey) == Keep([x], hasKey) + Keep(s, hasKey)
    decreases |s|
  {
    if |s| > 0 {
      if Leq(key(x), key(s[0])) {
        KeepAppend([x], s, hasKey);
      } else {
        LeqReflexive(key(x));
        var rest := Insert(x, s[1..], key);
        assert Insert(x, s, key) == [s[0]] + rest;
        assert key(s[0]) != key(x);
        InsertKeepsKeyOrder(x, s[1..], key, hasKey, k);
        KeepAppend([s[0]], rest, hasKey);
        KeepAppend([s[0]], s[1..], hasKey);
        assert s == [s[0]] + s[1..];
      }
    }
  }

  /**
   * Stability: the elements that share any one key appear in the sorted list
   * in the same relative order as in the input.
   */
  lemma {:induction false} SortByStable<T>(s: seq<T>, key: T -> string, hasKey: T -> bool, k: string)
    requires forall y :: hasKey(y) <==> key(y) == k
    ensures Keep(SortBy(s, key), hasKey) == Keep(s, hasKey)
    decreases |s|
  {
    if |s| > 0 {
      SortByStable(s[1..], key, hasKey, k);
      InsertKeepsKeyOrder(s[0], SortBy(s[1..], key), key, hasKey, k);
      KeepAppend([s[0]], s[1..], hasKey);
      assert s == [s[0]] + s[1..];
    }
  }
}
