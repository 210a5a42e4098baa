/** Queries over a table held as a sequence of rows: the first row matching
    a condition (`findOne`), the matching rows (`find` with a `WHERE`), their
    number (`count`) and a column sum (`SUM(...)` with `COALESCE(..., 0)`).
    Rows keep table order. */
module Tables {
  import opened Common

  /** The position of the first row satisfying `p`. */
  function FirstWhere<T>(s: seq<T>, p: T -> bool): (r: Option<nat>)
    ensures r.Some? ==> r.value < |s| && p(s[r.value])
    ensures r.Some? ==> forall j :: 0 <= j < r.value ==> !p(s[j])
    ensures r.None? <==> forall j :: 0 <= j < |s| ==> !p(s[j])
  {
    if |s| == 0 then None
    else if p(s[0]) then Some(0)
    else
      match FirstWhere(s[1..], p)
      case None => None
      case Some(k) => Some(k + 1)
  }

  /** A matching row with no match before it is the one found. */
  lemma FirstWhereFirst<T>(s: seq<T>, p: T -> bool, i: nat)
    requires i < |s| && p(s[i])
    requires forall j :: 0 <= j < i ==> !p(s[j])
    ensures FirstWhere(s, p) == Some(i)
  {
  }

  /** `f` on each row in turn, stopping at the first error (a loop whose
      body may throw). */
  function TraverseAll<T, U(==), E(==)>(s: seq<T>, f: T -> Result<U, E>): (r: Result<seq<U>, E>)
    ensures r.Ok? ==> |r.value| == |s| && forall i :: 0 <= i < |s| ==> f(s[i]) == Ok(r.value[i])
    ensures r.Err? <==> exists i :: 0 <= i < |s| && f(s[i]).Err?
    ensures r.Err? ==> exists i :: 0 <= i < |s| && f(s[i]) == Err(r.error) && forall j :: 0 <= j < i ==> f(s[j]).Ok?
    decreases |s|
  {
    if |s| == 0 then Ok([])
    else
      match f(s[0])
      case Err(e) => Err(e)
      case Ok(first) =>
        var rest := TraverseAll(s[1..], f);
        assert forall i :: 1 <= i < |s| ==> s[i] == s[1..][i - 1];
        if rest.Err? then
          var k :| 0 <= k < |s[1..]| && f(s[1..][k]) == Err(rest.error) && forall j :: 0 <= j < k ==> f(s[1..][j]).Ok?;
          assert f(s[k + 1]) == Err(rest.error);
          Err(rest.error)
        else Ok([first] + rest.value)
  }

  /** The rows satisfying `p`, in table order. */
  function Filter<T(!new)>(s: seq<T>, p: T -> bool): (r: seq<T>)
    ensures |r| <= |s|
    ensures forall x :: x in r <==> x in s && p(x)
  {
    if |s| == 0 then []
    else Filter(s[..|s| - 1], p) + (if p(s[|s| - 1]) then [s[|s| - 1]] else [])
  }

  /** A row that fails `p` is left out, so fewer rows remain. */
  lemma {:induction false} FilterDropsMiss<T(!new)>(s: seq<T>, p: T -> bool, i: nat)
    requires i < |s| && !p(s[i])
    ensures |Filter(s, p)| < |s|
  {
    var n := |s| - 1;
    if i < n {
      FilterDropsMiss(s[..n], p, i);
    }
  }

  /** The number of rows satisfying `p`. */
  function Count<T(!new)>(s: seq<T>, p: T -> bool): (n: nat)
    ensures n <= |s|
    ensures n == 0 <==> forall i :: 0 <= i < |s| ==> !p(s[i])
    ensures n == |Filter(s, p)|
  {
    if |s| == 0 then 0
    else Count(s[..|s| - 1], p) + (if p(s[|s| - 1]) then 1 else 0)
  }

  /** Counting from the front: the first row, then the rest. */
  lemma {:induction false} CountFront<T(!new)>(s: seq<T>, p: T -> bool)
    requires |s| > 0
    ensures Count(s, p) == (if p(s[0]) then 1 else 0) + Count(s[1..], p)
  {
    var n := |s| - 1;
    if n > 0 {
      CountFront(s[..n], p);
      assert s[..n][1..] == s[1..][..n - 1];
      assert s[..n][0] == s[0] && s[1..][n - 1] == s[n];
    }
  }

  /** Σ f(x) over the rows, 0 for none. */
  function SumOf<T>(s: seq<T>, f: T -> int): int
  {
    if |s| == 0 then 0 else SumOf(s[..|s| - 1], f) + f(s[|s| - 1])
  }

  lemma {:induction false} SumOfAppend<T>(s: seq<T>, x: T, f: T -> int)
    ensures SumOf(s + [x], f) == SumOf(s, f) + f(x)
  {
    assert (s + [x])[..|s|] == s;
  }

  lemma {:induction false} SumOfConcat<T>(s: seq<T>, t: seq<T>, f: T -> int)
    ensures SumOf(s + t, f) == SumOf(s, f) + SumOf(t, f)
    decreases |t|
  {
    if |t| == 0 {
      assert s + t == s;
    } else {
      var t' := t[..|t| - 1];
      assert s + t == (s + t') + [t[|t| - 1]];
      SumOfAppend(s + t', t[|t| - 1], f);
      SumOfConcat(s, t', f);
    }
  }

  /** The sum of a table is the sum of its rows before and from `k`. */
  lemma SumOfSplit<T>(s: seq<T>, k: nat, f: T -> int)
    requires k <= |s|
    ensures SumOf(s, f) == SumOf(s[..k], f) + SumOf(s[k..], f)
  {
    assert s == s[..k] + s[k..];
    SumOfConcat(s[..k], s[k..], f);
  }

  /** Two tables of the same length whose rows contribute the same amounts
      have the same sum. */
  lemma {:induction false} SumOfPairwise<T, U>(s: seq<T>, t: seq<U>, f: T -> int, g: U -> int)
    requires |s| == |t|
    requires forall i :: 0 <= i < |s| ==> f(s[i]) == g(t[i])
    ensures SumOf(s, f) == SumOf(t, g)
  {
    if |s| > 0 {
      SumOfPairwise(s[..|s| - 1], t[..|t| - 1], f, g);
    }
  }

  /** A sum of non-negative contributions is non-negative. */
  lemma {:induction false} SumOfNonNegative<T>(s: seq<T>, f: T -> int)
    requires forall i :: 0 <= i < |s| ==> f(s[i]) >= 0
    ensures SumOf(s, f) >= 0
  {
    if |s| > 0 {
      SumOfNonNegative(s[..|s| - 1], f);
    }
  }

  /** Pointwise smaller contributions give a smaller sum. */
  lemma {:induction false} SumOfMonotone<T>(s: seq<T>, f: T -> int, g: T -> int)
    requires forall i :: 0 <= i < |s| ==> f(s[i]) <= g(s[i])
    ensures SumOf(s, f) <= SumOf(s, g)
  {
    if |s| > 0 {
      SumOfMonotone(s[..|s| - 1], f, g);
    }
  }

  /** Replacing one row changes the sum by the difference of its
      contributions. */
  lemma {:induction false} SumOfUpdate<T>(s: seq<T>, i: nat, x: T, f: T -> int)
    requires i < |s|
    ensures SumOf(s[i := x], f) == SumOf(s, f) - f(s[i]) + f(x)
  {
    var n := |s| - 1;
    if i < n {
      SumOfUpdate(s[..n], i, x, f);
      assert s[i := x][..n] == s[..n][i := x];
    } else {
      assert s[i := x][..n] == s[..n];
    }
  }

  /** Summing over the matching rows is summing the contributions of the
      matching rows only. */
  lemma {:induction false} SumOfFilter<T(!new)>(s: seq<T>, p: T -> bool, f: T -> int, g: T -> int)
    requires forall x :: g(x) == (if p(x) then f(x) else 0)
    ensures SumOf(Filter(s, p), f) == SumOf(s, g)
  {
    if |s| > 0 {
      var n := |s| - 1;
      SumOfFilter(s[..n], p, f, g);
      if p(s[n]) {
        SumOfAppend(Filter(s[..n], p), s[n], f);
      } else {
        assert Filter(s, p) == Filter(s[..n], p);
      }
    }
  }

  /** Only rows with a non-zero contribution matter. */
  lemma {:induction false} SumOfZero<T>(s: seq<T>, f: T -> int)
    requires forall i :: 0 <= i < |s| ==> f(s[i]) == 0
    ensures SumOf(s, f) == 0
  {
    if |s| > 0 {
      SumOfZero(s[..|s| - 1], f);
    }
  }

  /** Reordering the rows does not change the sum. */
  lemma {:induction false} SumOfPermutation<T>(s: seq<T>, t: seq<T>, f: T -> int)
    requires multiset(s) == multiset(t)
    ensures SumOf(s, f) == SumOf(t, f)
    decreases |s|
  {
    if |s| == 0 {
      assert |t| == |multiset(t)| == 0;
    } else {
      var n := |s| - 1;
      var x := s[n];
      assert s == s[..n] + [x];
      assert x in multiset(t);
      var k :| 0 <= k < |t| && t[k] == x;
      var t' := t[..k] + t[k + 1..];
      assert t == t[..k] + [x] + t[k + 1..];
      assert multiset(t') == multiset(t) - multiset{x};
      assert multiset(s[..n]) == multiset(s) - multiset{x};
      SumOfPermutation(s[..n], t', f);
      SumOfConcat(t[..k], t[k + 1..], f);
      SumOfConcat(t[..k] + [x], t[k + 1..], f);
      SumOfAppend(t[..k], x, f);
    }
  }

  /** A sum of differences is the difference of the sums. */
  lemma {:induction false} SumOfDifference<T>(s: seq<T>, f: T -> int, g: T -> int, h: T -> int)
    requires forall i :: 0 <= i < |s| ==> h(s[i]) == f(s[i]) - g(s[i])
    ensures SumOf(s, h) == SumOf(s, f) - SumOf(s, g)
  {
    if |s| > 0 {
      SumOfDifference(s[..|s| - 1], f, g, h);
    }
  }

  lemma SumOfSingle<T>(x: T, f: T -> int)
    ensures SumOf([x], f) == f(x)
  {
    assert [x][..0] == [];
  }
}
