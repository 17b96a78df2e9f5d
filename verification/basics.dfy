/** Small shared datatypes: an optional value and a success-or-error result. */
module Basics {

  /** A value that may be absent (the source's `null` / `undefined`). */
  datatype Option<+T> = None | Some(value: T)

  /** The result of an operation that can throw in the source. */
  datatype Result<+T, +E> = Success(value: T) | Failure(error: E)

  function Max(a: int, b: int): int
  {
    if a >= b then a else b
  }

  /** `xs.map(f)`. */
  function Map<A, B>(f: A -> B, xs: seq<A>): (r: seq<B>)
    ensures |r| == |xs|
    ensures forall i :: 0 <= i < |xs| ==> r[i] == f(xs[i])
  {
    seq(|xs|, i requires 0 <= i < |xs| => f(xs[i]))
  }

  /** Mapping distributes over concatenation. */
  lemma MapAppend<A, B>(f: A -> B, xs: seq<A>, ys: seq<A>)
    ensures Map(f, xs + ys) == Map(f, xs) + Map(f, ys)
  {
    var l := Map(f, xs + ys);
    var r := Map(f, xs) + Map(f, ys);
    forall i | 0 <= i < |l|
      ensures l[i] == r[i]
    {
      if i < |xs| {
        assert (xs + ys)[i] == xs[i];
      } else {
        assert (xs + ys)[i] == ys[i - |xs|];
      }
    }
  }

  /** `xs.filter(f)`: the elements satisfying `f`, in their original order. */
  function Filter<T(!new)>(f: T -> bool, xs: seq<T>): (r: seq<T>)
    ensures |r| <= |xs|
    ensures forall x :: x in r <==> x in xs && f(x)
  {
    if xs == [] then []
    else
      var x := xs[|xs| - 1];
      assert xs == xs[..|xs| - 1] + [x];
      if f(x) then Filter(f, xs[..|xs| - 1]) + [x] else Filter(f, xs[..|xs| - 1])
  }

  /** Filtering distributes over concatenation, so the kept elements keep
      their relative order. */
  lemma {:induction false} FilterAppend<T(!new)>(f: T -> bool, xs: seq<T>, ys: seq<T>)
    ensures Filter(f, xs + ys) == Filter(f, xs) + Filter(f, ys)
  {
    if ys == [] {
      assert xs + ys == xs;
    } else {
      var init := ys[..|ys| - 1];
      assert (xs + ys)[..|xs + ys| - 1] == xs + init;
      FilterAppend(f, xs, init);
    }
  }

  /** Filtering keeps every passing element as often as it occurs and drops
      every other one entirely. */
  lemma {:induction false} FilterMultiset<T(!new)>(f: T -> bool, xs: seq<T>, x: T)
    ensures multiset(Filter(f, xs))[x] == if f(x) then multiset(xs)[x] else 0
  {
    if xs != [] {
      var init := xs[..|xs| - 1];
      FilterMultiset(f, init, x);
      assert xs == init + [xs[|xs| - 1]];
    }
  }

  /** A filter that keeps everything is the identity. */
  lemma {:induction false} FilterAll<T(!new)>(f: T -> bool, xs: seq<T>)
    requires forall i :: 0 <= i < |xs| ==> f(xs[i])
    ensures Filter(f, xs) == xs
  {
    if xs != [] {
      FilterAll(f, xs[..|xs| - 1]);
      assert xs == xs[..|xs| - 1] + [xs[|xs| - 1]];
    }
  }

  /** The positions passing `f`, counted. */
  function CountWhere<T>(f: T -> bool, xs: seq<T>): nat
  {
    |set i | 0 <= i < |xs| && f(xs[i])|
  }

  /** Any set holding exactly the passing positions has the count as its size. */
  lemma CountWhereIs<T>(f: T -> bool, xs: seq<T>, s: set<int>)
    requires forall i :: i in s <==> 0 <= i < |xs| && f(xs[i])
    ensures CountWhere(f, xs) == |s|
  {
    assert s == set i | 0 <= i < |xs| && f(xs[i]);
  }

  /** Counting positions one element at a time. */
  lemma CountWhereStep<T>(f: T -> bool, xs: seq<T>)
    requires xs != []
    ensures CountWhere(f, xs) == CountWhere(f, xs[..|xs| - 1]) + (if f(xs[|xs| - 1]) then 1 else 0)
  {
    var n := |xs|;
    var init := xs[..n - 1];
    var before := set i | 0 <= i < n - 1 && f(init[i]);
    var after := set i | 0 <= i < n && f(xs[i]);
    forall i | 0 <= i < n - 1
      ensures i in after <==> i in before
    {
      assert xs[i] == init[i];
    }
    assert forall i :: i in after ==> 0 <= i < n;
    assert forall i :: i in before ==> 0 <= i < n - 1;
    if f(xs[n - 1]) {
      assert after == before + {n - 1};
    } else {
      assert after == before;
    }
  }

  /** Tests that are each other's negation split the positions between them. */
  lemma {:induction false} CountWhereComplement<T(!new)>(f: T -> bool, g: T -> bool, xs: seq<T>)
    requires forall x :: g(x) <==> !f(x)
    ensures CountWhere(f, xs) + CountWhere(g, xs) == |xs|
  {
    if xs != [] {
      CountWhereComplement(f, g, xs[..|xs| - 1]);
      CountWhereStep(f, xs);
      CountWhereStep(g, xs);
    }
  }

  /** The count, with one position set apart. */
  lemma CountWhereSplitAt<T>(f: T -> bool, xs: seq<T>, k: int)
    requires 0 <= k < |xs|
    ensures CountWhere(f, xs) == |set i | 0 <= i < |xs| && i != k && f(xs[i])| + (if f(xs[k]) then 1 else 0)
  {
    var all := set i | 0 <= i < |xs| && f(xs[i]);
    var rest := set i | 0 <= i < |xs| && i != k && f(xs[i]);
    assert k !in rest;
    if f(xs[k]) {
      assert all == rest + {k};
    } else {
      assert all == rest;
    }
  }

  /** Replacing one element changes the count by what the old and the new
      element contribute. */
  lemma CountWhereUpdate<T>(f: T -> bool, xs: seq<T>, k: int, y: T)
    requires 0 <= k < |xs|
    ensures CountWhere(f, xs[k := y]) + (if f(xs[k]) then 1 else 0)
            == CountWhere(f, xs) + (if f(y) then 1 else 0)
  {
    var ys := xs[k := y];
    CountWhereSplitAt(f, xs, k);
    CountWhereSplitAt(f, ys, k);
    var restX := set i | 0 <= i < |xs| && i != k && f(xs[i]);
    var restY := set i | 0 <= i < |ys| && i != k && f(ys[i]);
    forall i | 0 <= i < |xs| && i != k
      ensures ys[i] == xs[i]
    {
    }
    assert restX == restY;
  }

  /** The length of a filter is the number of positions whose element passes. */
  lemma {:induction false} FilterCount<T(!new)>(f: T -> bool, xs: seq<T>)
    ensures |Filter(f, xs)| == CountWhere(f, xs)
  {
    if xs != [] {
      FilterCount(f, xs[..|xs| - 1]);
      CountWhereStep(f, xs);
    }
  }

  /** A stronger test keeps no more elements than a weaker one. */
  lemma {:induction false} FilterMono<T(!new)>(f: T -> bool, g: T -> bool, xs: seq<T>)
    requires forall x :: f(x) ==> g(x)
    ensures |Filter(f, xs)| <= |Filter(g, xs)|
  {
    if xs != [] {
      FilterMono(f, g, xs[..|xs| - 1]);
    }
  }

  /** A non-empty set has a member. */
  lemma HasMember(s: set<int>)
    requires |s| > 0
    ensures exists x :: x in s
  {
    if forall x :: x !in s {
      assert false;
    }
  }

  /** A set of at least two numbers has a smaller and a larger member. */
  lemma TwoMembers(s: set<int>) returns (a: int, b: int)
    requires |s| >= 2
    ensures a in s && b in s && a < b
  {
    HasMember(s);
    var x :| x in s;
    var rest := s - {x};
    assert |rest| == |s| - 1;
    HasMember(rest);
    var y :| y in rest;
    if x < y {
      a, b := x, y;
    } else {
      a, b := y, x;
    }
  }

  /** Two different members make a set of at least two. */
  lemma PairInside(s: set<int>, a: int, b: int)
    requires a in s && b in s && a != b
    ensures |s| >= 2
  {
    assert s == {a, b} + (s - {a, b});
  }

  /** At least two elements pass exactly when two different positions do,
      even when the two elements are equal. */
  lemma AtLeastTwoWhere<T(!new)>(f: T -> bool, xs: seq<T>)
    ensures |Filter(f, xs)| >= 2 <==> exists j1, j2 :: 0 <= j1 < j2 < |xs| && f(xs[j1]) && f(xs[j2])
  {
    FilterCount(f, xs);
    var s := set i | 0 <= i < |xs| && f(xs[i]);
    if |s| >= 2 {
      var j1, j2 := TwoMembers(s);
      assert 0 <= j1 < j2 < |xs| && f(xs[j1]) && f(xs[j2]);
    }
    if exists j1, j2 :: 0 <= j1 < j2 < |xs| && f(xs[j1]) && f(xs[j2]) {
      var j1, j2 :| 0 <= j1 < j2 < |xs| && f(xs[j1]) && f(xs[j2]);
      PairInside(s, j1, j2);
    }
  }
}
