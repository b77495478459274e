/**
 * Sequence vocabulary for the proxy pool's compact stores: removal by
 * swap-with-last, batches of such removals, and the ascending index lists
 * and filters that the liveness sweep records.
 */
module SwapRemoval {

  function Last<T>(s: seq<T>): T
    requires |s| > 0
  {
    s[|s| - 1]
  }

  function DropLast<T>(s: seq<T>): seq<T>
    requires |s| > 0
  {
    s[..|s| - 1]
  }

  /** Index lists recorded in ascending order, without repetition. */
  predicate Increasing(idxs: seq<int>) {
    forall a, b :: 0 <= a < b < |idxs| ==> idxs[a] < idxs[b]
  }

  /** Every recorded index addresses one of the first `n` slots. */
  predicate InRange(idxs: seq<int>, n: int) {
    forall k :: 0 <= k < |idxs| ==> 0 <= idxs[k] < n
  }

  /**
   * Removal by swap-with-last: the last entry fills slot `i` and the
   * sequence shrinks by one; order is not preserved, nothing else moves.
   */
  function SwapRemove<T>(s: seq<T>, i: int): (r: seq<T>)
    requires 0 <= i < |s|
    ensures |r| == |s| - 1
    ensures forall k :: 0 <= k < |r| && k != i ==> r[k] == s[k]
    ensures i < |r| ==> r[i] == Last(s)
  {
    s[i := Last(s)][..|s| - 1]
  }

  lemma SwapRemoveMultiset<T>(s: seq<T>, i: int)
    requires 0 <= i < |s|
    ensures multiset(SwapRemove(s, i)) + multiset{s[i]} == multiset(s)
  {
    var t := s[i := Last(s)];
    assert t == SwapRemove(s, i) + [Last(s)];
    assert multiset(t) == multiset(s) - multiset{s[i]} + multiset{Last(s)};
  }

  /**
   * Removes the entries at the ascending indices `idxs`, largest index
   * first, each by swap-with-last.
   */
  function RemoveAll<T>(s: seq<T>, idxs: seq<int>): (r: seq<T>)
    requires Increasing(idxs) && InRange(idxs, |s|)
    ensures |r| == |s| - |idxs|
    decreases |idxs|
  {
    if idxs == [] then s
    else RemoveAll(SwapRemove(s, Last(idxs)), DropLast(idxs))
  }

  /** The entries at `idxs`, in the order of `idxs`. */
  function Pick<T>(s: seq<T>, idxs: seq<int>): (r: seq<T>)
    requires InRange(idxs, |s|)
    ensures |r| == |idxs|
    ensures forall k :: 0 <= k < |idxs| ==> r[k] == s[idxs[k]]
    decreases |idxs|
  {
    if idxs == [] then [] else Pick(s, DropLast(idxs)) + [s[Last(idxs)]]
  }

  /** The entries of `s` that satisfy `p`, in order. */
  function Filter<T>(s: seq<T>, p: T -> bool): (r: seq<T>)
    ensures |r| <= |s|
    decreases |s|
  {
    if s == [] then []
    else
      assert s == DropLast(s) + [Last(s)];
      Filter(DropLast(s), p) + (if p(Last(s)) then [Last(s)] else [])
  }

  /** The ascending list of positions of `s` whose entry satisfies `p`. */
  function IndicesWhere<T>(s: seq<T>, p: T -> bool): (r: seq<int>)
    ensures Increasing(r) && InRange(r, |s|)
    decreases |s|
  {
    if s == [] then []
    else IndicesWhere(DropLast(s), p) + (if p(Last(s)) then [|s| - 1] else [])
  }

  /** The filter keeps exactly the entries that satisfy `p`. */
  lemma {:induction false} FilterMembers<T>(s: seq<T>, p: T -> bool)
    ensures forall x :: x in Filter(s, p) <==> x in s && p(x)
    decreases |s|
  {
    if s != [] {
      FilterMembers(DropLast(s), p);
      assert s == DropLast(s) + [Last(s)];
    }
  }

  /** The recorded positions are exactly those whose entry satisfies `p`. */
  lemma {:induction false} IndicesWhereMembers<T>(s: seq<T>, p: T -> bool)
    ensures forall i :: i in IndicesWhere(s, p) <==> 0 <= i < |s| && p(s[i])
    decreases |s|
  {
    if s != [] {
      IndicesWhereMembers(DropLast(s), p);
    }
  }

  lemma MultisetCancel<T>(a: multiset<T>, b: multiset<T>, d: multiset<T>)
    requires a + b == d + b
    ensures a == d
  {
    assert forall x :: a[x] == d[x] by {
      forall x ensures a[x] == d[x] {
        assert (a + b)[x] == (d + b)[x];
      }
    }
  }

  /** Swap-removing slot `d` leaves every slot below `d` where it was. */
  lemma {:induction false} PickBelowUntouched<T>(s: seq<T>, d: int, idxs: seq<int>)
    requires 0 <= d < |s| && InRange(idxs, d)
    ensures Pick(SwapRemove(s, d), idxs) == Pick(s, idxs)
  {
  }

  /** A batch removal takes out exactly the picked entries, as a multiset. */
  lemma {:induction false} RemoveAllMultiset<T>(s: seq<T>, idxs: seq<int>)
    requires Increasing(idxs) && InRange(idxs, |s|)
    ensures multiset(RemoveAll(s, idxs)) + multiset(Pick(s, idxs)) == multiset(s)
    decreases |idxs|
  {
    if idxs != [] {
      var d, rest := Last(idxs), DropLast(idxs);
      var t := SwapRemove(s, d);
      RemoveAllMultiset(t, rest);
      PickBelowUntouched(s, d, rest);
      SwapRemoveMultiset(s, d);
    }
  }

  /** Picking the positions that satisfy `p` yields the filter by `p`. */
  lemma {:induction false} PickIndicesWhere<T>(s: seq<T>, t: seq<T>, p: T -> bool)
    requires |s| <= |t|
    requires forall i :: 0 <= i < |s| && p(s[i]) ==> t[i] == s[i]
    ensures Pick(t, IndicesWhere(s, p)) == Filter(s, p)
    decreases |s|
  {
    if s != [] {
      var s' := DropLast(s);
      var idxs := IndicesWhere(s, p);
      assert IndicesWhere(s', p) == (if p(Last(s)) then DropLast(idxs) else idxs);
      PickIndicesWhere(s', t, p);
    }
  }

  /** Splitting by `p` and by its negation loses nothing. */
  lemma {:induction false} FilterPartition<T>(s: seq<T>, p: T -> bool, q: T -> bool)
    requires forall x :: q(x) == !p(x)
    ensures multiset(Filter(s, p)) + multiset(Filter(s, q)) == multiset(s)
    decreases |s|
  {
    if s != [] {
      FilterPartition(DropLast(s), p, q);
      assert s == DropLast(s) + [Last(s)];
    }
  }

  lemma FilterSnoc<T>(s: seq<T>, x: T, p: T -> bool)
    ensures Filter(s + [x], p) == Filter(s, p) + (if p(x) then [x] else [])
  {
    assert DropLast(s + [x]) == s;
  }

  lemma IndicesWhereSnoc<T>(s: seq<T>, x: T, p: T -> bool)
    ensures IndicesWhere(s + [x], p) == IndicesWhere(s, p) + (if p(x) then [|s|] else [])
  {
    assert DropLast(s + [x]) == s;
  }

  lemma PickSnoc<T>(s: seq<T>, idxs: seq<int>, d: int)
    requires InRange(idxs, |s|) && 0 <= d < |s|
    ensures Pick(s, idxs + [d]) == Pick(s, idxs) + [s[d]]
  {
    assert DropLast(idxs + [d]) == idxs;
  }
}
