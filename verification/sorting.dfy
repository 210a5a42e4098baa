/** Python's `sorted(xs, key=...)` in ascending order, as a stable insertion
    sort: a later item is inserted after every earlier item with an equal
    key. */
module Sorting {
  /** The keys never decrease along `s`. */
  predicate SortedBy<T>(s: seq<T>, key: T -> real)
  {
    forall i, j :: 0 <= i < j < |s| ==> key(s[i]) <= key(s[j])
  }

  /** Inserts `x` before the first item with a strictly larger key. */
  function InsertBy<T>(x: T, sorted: seq<T>, key: T -> real): (r: seq<T>)
    ensures multiset(r) == multiset(sorted) + multiset{x}
    ensures |r| == |sorted| + 1
  {
    if |sorted| == 0 then [x]
    else if key(x) < key(sorted[0]) then [x] + sorted
    else
      assert sorted == [sorted[0]] + sorted[1..];
      [sorted[0]] + InsertBy(x, sorted[1..], key)
  }

  lemma {:induction false} InsertKeepsSorted<T>(x: T, sorted: seq<T>, key: T -> real)
    requires SortedBy(sorted, key)
    ensures SortedBy(InsertBy(x, sorted, key), key)
    ensures |sorted| > 0 ==> InsertBy(x, sorted, key)[0] == sorted[0] || InsertBy(x, sorted, key)[0] == x
  {
    if |sorted| == 0 {
    } else if key(x) < key(sorted[0]) {
      ConsSorted(x, sorted, key);
    } else {
      var rest := sorted[1..];
      assert SortedBy(rest, key);
      InsertKeepsSorted(x, rest, key);
      var ins := InsertBy(x, rest, key);
      HeadBelowInsert(x, sorted, key);
      ConsSorted(sorted[0], ins, key);
    }
  }

  /** An item with a key at most every key of an ordered list can go in
      front of it. */
  lemma ConsSorted<T>(h: T, s: seq<T>, key: T -> real)
    requires SortedBy(s, key)
    requires forall j :: 0 <= j < |s| ==> key(h) <= key(s[j])
    ensures SortedBy([h] + s, key)
  {
    var r := [h] + s;
    forall i, j | 0 <= i < j < |r| ensures key(r[i]) <= key(r[j]) {
      assert r[j] == s[j - 1];
      if i > 0 {
        assert r[i] == s[i - 1];
      }
    }
  }

  /** The first item of an ordered list has a key at most every key left
      after inserting a later-placed item into the rest. */
  lemma HeadBelowInsert<T>(x: T, sorted: seq<T>, key: T -> real)
    requires SortedBy(sorted, key) && |sorted| > 0 && key(x) >= key(sorted[0])
    ensures var ins := InsertBy(x, sorted[1..], key);
      forall j :: 0 <= j < |ins| ==> key(sorted[0]) <= key(ins[j])
  {
    var rest := sorted[1..];
    var ins := InsertBy(x, rest, key);
    assert multiset(ins) == multiset(rest) + multiset{x};
    forall j | 0 <= j < |ins| ensures key(sorted[0]) <= key(ins[j]) {
      assert ins[j] in multiset(ins);
      if ins[j] != x {
        assert ins[j] in multiset(rest);
        var k :| 0 <= k < |rest| && rest[k] == ins[j];
        assert rest[k] == sorted[k + 1];
      }
    }
  }

  /** `sorted(xs, key=key)`. */
  function SortBy<T>(xs: seq<T>, key: T -> real): (r: seq<T>)
    ensures multiset(r) == multiset(xs) && |r| == |xs|
  {
    if |xs| == 0 then []
    else
      var n := |xs| - 1;
      assert xs == xs[..n] + [xs[n]];
      InsertBy(xs[n], SortBy(xs[..n], key), key)
  }

  /** The result is ordered by the key. */
  lemma {:induction false} SortBySorted<T>(xs: seq<T>, key: T -> real)
    ensures SortedBy(SortBy(xs, key), key)
  {
    if |xs| > 0 {
      var n := |xs| - 1;
      var prev := SortBy(xs[..n], key);
      SortBySorted(xs[..n], key);
      InsertKeepsSorted(xs[n], prev, key);
      assert SortBy(xs, key) == InsertBy(xs[n], prev, key);
    }
  }

  /** Sorting keeps exactly the items it is given. */
  lemma SortByMembers<T>(xs: seq<T>, key: T -> real)
    ensures forall x :: x in SortBy(xs, key) <==> x in xs
  {
    var r := SortBy(xs, key);
    forall x ensures x in r <==> x in xs {
      assert x in r <==> x in multiset(r);
      assert x in xs <==> x in multiset(xs);
    }
  }

  /** Inserting an item whose key is at least every key places it last. */
  lemma {:induction false} InsertAtEnd<T>(x: T, sorted: seq<T>, key: T -> real)
    requires forall i :: 0 <= i < |sorted| ==> key(sorted[i]) <= key(x)
    ensures InsertBy(x, sorted, key) == sorted + [x]
  {
    if |sorted| > 0 {
      InsertAtEnd(x, sorted[1..], key);
      assert [sorted[0]] + (sorted[1..] + [x]) == sorted + [x];
    }
  }

  /** Sorting an already ordered list changes nothing, so equal keys keep
      their order there. */
  lemma {:induction false} SortBySortedInput<T>(xs: seq<T>, key: T -> real)
    requires SortedBy(xs, key)
    ensures SortBy(xs, key) == xs
  {
    if |xs| > 0 {
      var n := |xs| - 1;
      assert SortedBy(xs[..n], key);
      SortBySortedInput(xs[..n], key);
      InsertAtEnd(xs[n], xs[..n], key);
      assert xs[..n] + [xs[n]] == xs;
    }
  }
}
