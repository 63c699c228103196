/** Small building blocks shared by the handlers: an optional value, integer
    bounds, the filter that list comprehensions with an `if` and filtering
    `append` loops compute, and Python's slice semantics. */
module Common {

  datatype Option<+T> = None | Some(value: T)

  function Min(a: int, b: int): int { if a <= b then a else b }

  function Max(a: int, b: int): int { if a >= b then a else b }

  /** The elements of `s` that satisfy `keep`, in their original order
      (`FilterCounts` states how often each occurs, `FilterSelectsInOrder`
      the order). */
  function Filter<T(!new)>(s: seq<T>, keep: T -> bool): (r: seq<T>)
    ensures |r| <= |s|
    ensures forall x :: x in r <==> x in s && keep(x)
    decreases |s|
  {
    if s == [] then []
    else
      var init, last := s[..|s| - 1], s[|s| - 1];
      assert s == init + [last];
      Filter(init, keep) + (if keep(last) then [last] else [])
  }

  /** The filter keeps every kept element as often as `s` holds it, and no
      rejected element at all. */
  lemma {:induction false} FilterCounts<T(!new)>(s: seq<T>, keep: T -> bool)
    ensures forall x :: multiset(Filter(s, keep))[x] == if keep(x) then multiset(s)[x] else 0
  {
    if s != [] {
      var init, last := s[..|s| - 1], s[|s| - 1];
      assert s == init + [last];
      assert multiset(s) == multiset(init) + multiset{last};
      FilterCounts(init, keep);
      FilterSnoc(init, last, keep);
    }
  }

  /** `idx` lists, in increasing order, the positions of `s` whose elements
      pass `keep`, and `r` holds the elements at those positions. */
  ghost predicate SelectsKeptPositions<T>(r: seq<T>, s: seq<T>, keep: T -> bool, idx: seq<int>) {
    && |idx| == |r|
    && (forall k :: 0 <= k < |idx| ==> 0 <= idx[k] < |s| && r[k] == s[idx[k]] && keep(s[idx[k]]))
    && (forall k, l :: 0 <= k < l < |idx| ==> idx[k] < idx[l])
    && (forall i :: 0 <= i < |s| && keep(s[i]) ==> i in idx)
  }

  /** The positions of `s` whose elements pass `keep`, in increasing order. */
  ghost function KeptPositions<T>(s: seq<T>, keep: T -> bool): seq<int>
    decreases |s|
  {
    if s == [] then []
    else
      var n := |s| - 1;
      KeptPositions(s[..n], keep) + (if keep(s[n]) then [n] else [])
  }

  /** The filter keeps the order of its input: its result is the subsequence
      of `s` at exactly the positions whose elements are kept. */
  lemma {:induction false} FilterSelectsInOrder<T(!new)>(s: seq<T>, keep: T -> bool)
    ensures SelectsKeptPositions(Filter(s, keep), s, keep, KeptPositions(s, keep))
  {
    if s != [] {
      var init, last := s[..|s| - 1], s[|s| - 1];
      assert s == init + [last];
      FilterSelectsInOrder(init, keep);
      FilterSnoc(init, last, keep);
      SelectsKeptPositionsSnoc(Filter(init, keep), init, last, keep, KeptPositions(init, keep));
    }
  }

  /** One step of `FilterSelectsInOrder`: a kept element appended to the input
      is appended to the result, under its own position. */
  lemma SelectsKeptPositionsSnoc<T>(r0: seq<T>, init: seq<T>, last: T, keep: T -> bool, idx0: seq<int>)
    requires SelectsKeptPositions(r0, init, keep, idx0)
    ensures SelectsKeptPositions(
      r0 + (if keep(last) then [last] else []), init + [last], keep,
      idx0 + (if keep(last) then [|init|] else []))
  {
    var s, n := init + [last], |init|;
    var r := r0 + (if keep(last) then [last] else []);
    var idx := idx0 + (if keep(last) then [n] else []);
    forall k | 0 <= k < |idx|
      ensures 0 <= idx[k] < |s| && r[k] == s[idx[k]] && keep(s[idx[k]])
    {
      if k < |idx0| {
        assert idx[k] == idx0[k] && r[k] == r0[k] && s[idx0[k]] == init[idx0[k]];
      }
    }
    forall k, l | 0 <= k < l < |idx| ensures idx[k] < idx[l] {
      if l < |idx0| { assert idx[k] == idx0[k] && idx[l] == idx0[l]; }
    }
    forall i | 0 <= i < |s| && keep(s[i]) ensures i in idx {
      if i < n { assert s[i] == init[i]; assert i in idx0; }
    }
  }

  /** Filtering one more element appends it exactly when it is kept: the step
      of a loop that filters by appending. */
  lemma {:induction false} FilterSnoc<T(!new)>(s: seq<T>, x: T, keep: T -> bool)
    ensures Filter(s + [x], keep) == Filter(s, keep) + (if keep(x) then [x] else [])
  {
    assert (s + [x])[..|s + [x]| - 1] == s;
  }

  /** A filter that rejects nothing returns its input unchanged. */
  lemma {:induction false} FilterKeepsAll<T(!new)>(s: seq<T>, keep: T -> bool)
    requires forall x :: x in s ==> keep(x)
    ensures Filter(s, keep) == s
  {
    if s != [] {
      var init := s[..|s| - 1];
      assert s == init + [s[|s| - 1]];
      FilterKeepsAll(init, keep);
    }
  }

  /** Two filters that agree on every element of `s` select the same subsequence. */
  lemma {:induction false} FilterCongruent<T(!new)>(s: seq<T>, p: T -> bool, q: T -> bool)
    requires forall x :: x in s ==> p(x) == q(x)
    ensures Filter(s, p) == Filter(s, q)
  {
    if s != [] {
      var init := s[..|s| - 1];
      assert s == init + [s[|s| - 1]];
      FilterCongruent(init, p, q);
    }
  }

  /** Python's normalisation of a slice bound against a sequence of length `n`:
      a negative bound counts from the end, and the result is clamped to 0..n. */
  function SliceBound(i: int, n: nat): (b: nat)
    ensures b <= n
    ensures 0 <= i ==> b == Min(i, n)
    ensures i < 0 ==> b == Max(0, n + i)
  {
    if i < 0 then Max(0, n + i) else Min(i, n)
  }

  /** Python's `s[start:end]`: never fails, empty when the normalised bounds
      cross. Unless a non-negative start meets a negative end (`s[5:-5]`), it
      is no longer than `end - start`. */
  function PySlice<T>(s: seq<T>, start: int, end: int): (r: seq<T>)
    ensures |r| == Max(0, SliceBound(end, |s|) - SliceBound(start, |s|))
    ensures start < 0 || 0 <= end ==> |r| <= Max(0, end - start)
    ensures forall k :: 0 <= k < |r| ==> r[k] == s[SliceBound(start, |s|) + k]
  {
    var a, b := SliceBound(start, |s|), SliceBound(end, |s|);
    assert (start < 0 || 0 <= end) && a < b ==> b - a <= end - start by {
      if start < 0 && 0 <= end {
        assert a >= |s| + start && b <= end;
      }
    }
    if a < b then s[a..b] else []
  }
}
