/** Generic operations on sequences: the `flatMap`, `filter` and
    map-then-filter shapes the scrapers build their outputs with. */
module Seqs {
  import opened Common

  // ---------------------------------------------------------------------------
  // Mapping and flattening

  /** `xs.flatMap(f)`: the pieces `f` gives for each element, concatenated in order. */
  function FlatMap<A, B>(xs: seq<A>, f: A -> seq<B>): seq<B>
  {
    if xs == [] then [] else FlatMap(xs[..|xs| - 1], f) + f(xs[|xs| - 1])
  }

  /** Flattening a concatenation flattens each part in turn. */
  lemma {:induction false} FlatMapAppend<A, B>(xs: seq<A>, ys: seq<A>, f: A -> seq<B>)
    ensures FlatMap(xs + ys, f) == FlatMap(xs, f) + FlatMap(ys, f)
  {
    if ys == [] {
      assert xs + ys == xs;
    } else {
      assert (xs + ys)[..|xs + ys| - 1] == xs + ys[..|ys| - 1];
      FlatMapAppend(xs, ys[..|ys| - 1], f);
    }
  }

  /** One element more adds its piece at the end. */
  lemma {:induction false} FlatMapSnoc<A, B>(xs: seq<A>, f: A -> seq<B>, j: nat)
    requires j < |xs|
    ensures FlatMap(xs[..j + 1], f) == FlatMap(xs[..j], f) + f(xs[j])
  {
    assert xs[..j + 1][..j] == xs[..j];
  }

  /** Element `j`'s piece sits between the pieces of the elements before and after it. */
  lemma {:induction false} FlatMapAt<A, B>(xs: seq<A>, f: A -> seq<B>, j: nat)
    requires j < |xs|
    ensures FlatMap(xs, f) == FlatMap(xs[..j], f) + f(xs[j]) + FlatMap(xs[j + 1..], f)
  {
    var front, back := xs[..j + 1], xs[j + 1..];
    calc {
      FlatMap(xs, f);
      { assert xs == front + back; }
      FlatMap(front + back, f);
      { FlatMapAppend(front, back, f); }
      FlatMap(front, f) + FlatMap(back, f);
      { FlatMapSnoc(xs, f, j); }
      FlatMap(xs[..j], f) + f(xs[j]) + FlatMap(back, f);
    }
  }

  /** A prefix one longer is the shorter prefix and the next element. */
  lemma {:induction false} PrefixSnoc<A>(xs: seq<A>, i: nat)
    requires i < |xs|
    ensures xs[..i + 1] == xs[..i] + [xs[i]]
  {
  }

  /** `xs.filter(p)`: the elements satisfying `p`, in order. */
  function Filter<A>(xs: seq<A>, p: A -> bool): (ys: seq<A>)
    ensures |ys| <= |xs|
    ensures forall y :: y in ys ==> y in xs && p(y)
  {
    if xs == [] then []
    else
      var init := Filter(xs[..|xs| - 1], p);
      assert forall y :: y in xs[..|xs| - 1] ==> y in xs;
      if p(xs[|xs| - 1]) then init + [xs[|xs| - 1]] else init
  }

  /** Every element satisfying `p` is kept. */
  lemma {:induction false} FilterComplete<A>(xs: seq<A>, p: A -> bool)
    ensures forall x :: x in xs && p(x) ==> x in Filter(xs, p)
  {
    if xs != [] {
      FilterComplete(xs[..|xs| - 1], p);
      assert forall x :: x in xs ==> x in xs[..|xs| - 1] || x == xs[|xs| - 1];
    }
  }

  /** `xs.map(f).filter(Boolean)` where `f` gives a value or nothing: the
      values given, in order. */
  function FilterMap<A, B>(xs: seq<A>, f: A -> Option<B>): (ys: seq<B>)
    ensures |ys| <= |xs|
  {
    if xs == [] then []
    else
      var init := FilterMap(xs[..|xs| - 1], f);
      match f(xs[|xs| - 1])
      case None => init
      case Some(y) => init + [y]
  }

  /** One element more adds its value, if it gives one, at the end. */
  lemma {:induction false} FilterMapSnoc<A, B>(xs: seq<A>, f: A -> Option<B>, j: nat)
    requires j < |xs|
    ensures FilterMap(xs[..j + 1], f) == FilterMap(xs[..j], f) + if f(xs[j]).Some? then [f(xs[j]).value] else []
  {
    assert xs[..j + 1][..j] == xs[..j];
  }

  /** When `p` holds exactly where `f` gives a value, the values kept are
      those given by the elements `p` keeps: one per element, in order. */
  lemma {:induction false} FilterMapOfFilter<A, B>(xs: seq<A>, f: A -> Option<B>, p: A -> bool)
    requires forall x :: p(x) <==> f(x).Some?
    ensures |FilterMap(xs, f)| == |Filter(xs, p)|
    ensures forall k :: 0 <= k < |Filter(xs, p)| ==> f(Filter(xs, p)[k]) == Some(FilterMap(xs, f)[k])
  {
    if xs != [] {
      FilterMapOfFilter(xs[..|xs| - 1], f, p);
    }
  }

  /** A value is kept exactly when some element gives it. */
  lemma {:induction false} FilterMapMembers<A, B>(xs: seq<A>, f: A -> Option<B>)
    ensures forall y :: y in FilterMap(xs, f) ==> exists x :: x in xs && f(x) == Some(y)
    ensures forall x :: x in xs && f(x).Some? ==> f(x).value in FilterMap(xs, f)
  {
    if xs != [] {
      var init, last := xs[..|xs| - 1], xs[|xs| - 1];
      FilterMapMembers(init, f);
      assert forall x :: x in init ==> x in xs;
      assert forall x :: x in xs ==> x in init || x == last;
    }
  }

  /** Mapping-then-filtering a concatenation does each part in turn: what the
      earlier elements give comes before what the later ones give. */
  lemma {:induction false} FilterMapAppend<A, B>(xs: seq<A>, ys: seq<A>, f: A -> Option<B>)
    ensures FilterMap(xs + ys, f) == FilterMap(xs, f) + FilterMap(ys, f)
    decreases |ys|
  {
    if ys == [] {
      assert xs + ys == xs;
    } else {
      assert (xs + ys)[..|xs + ys| - 1] == xs + ys[..|ys| - 1];
      FilterMapAppend(xs, ys[..|ys| - 1], f);
    }
  }

  /** Something is kept iff some element gives a value. */
  lemma {:induction false} FilterMapNonEmpty<A, B>(xs: seq<A>, f: A -> Option<B>)
    ensures |FilterMap(xs, f)| > 0 <==> exists k :: 0 <= k < |xs| && f(xs[k]).Some?
  {
    if xs != [] {
      var n := |xs| - 1;
      FilterMapNonEmpty(xs[..n], f);
      if exists k :: 0 <= k < n && f(xs[..n][k]).Some? {
        var k :| 0 <= k < n && f(xs[..n][k]).Some?;
        assert xs[..n][k] == xs[k];
      }
      if exists k :: 0 <= k < |xs| && f(xs[k]).Some? {
        var k :| 0 <= k < |xs| && f(xs[k]).Some?;
        if k < n {
          assert xs[..n][k] == xs[k];
        }
      }
    }
  }

  // ---------------------------------------------------------------------------
  // Map-then-filter with positions

  /** Like `FilterMap`, but `g` also sees each element's position. */
  function IndexedFilterMap<A, B>(xs: seq<A>, g: (nat, A) -> Option<B>): (ys: seq<B>)
    ensures |ys| <= |xs|
  {
    if xs == [] then []
    else
      var init := IndexedFilterMap(xs[..|xs| - 1], g);
      match g(|xs| - 1, xs[|xs| - 1])
      case None => init
      case Some(y) => init + [y]
  }

  /** The values kept are exactly those some position gives. */
  lemma IndexedFilterMapExact<A, B>(xs: seq<A>, g: (nat, A) -> Option<B>)
    ensures forall y :: y in IndexedFilterMap(xs, g) <==> exists r :: 0 <= r < |xs| && g(r, xs[r]) == Some(y)
  {
    IndexedFilterMapSound(xs, g);
    IndexedFilterMapComplete(xs, g);
  }

  lemma {:induction false} IndexedFilterMapSound<A, B>(xs: seq<A>, g: (nat, A) -> Option<B>)
    ensures forall y :: y in IndexedFilterMap(xs, g) ==> exists r :: 0 <= r < |xs| && g(r, xs[r]) == Some(y)
  {
    if xs != [] {
      var n := |xs| - 1;
      var front := xs[..n];
      IndexedFilterMapSound(front, g);
      forall y | y in IndexedFilterMap(xs, g) ensures exists r :: 0 <= r < |xs| && g(r, xs[r]) == Some(y) {
        if y in IndexedFilterMap(front, g) {
          var r :| 0 <= r < n && g(r, front[r]) == Some(y);
          assert front[r] == xs[r];
        } else {
          assert g(n, xs[n]) == Some(y);
        }
      }
    }
  }

  lemma {:induction false} IndexedFilterMapComplete<A, B>(xs: seq<A>, g: (nat, A) -> Option<B>)
    ensures forall r :: 0 <= r < |xs| && g(r, xs[r]).Some? ==> g(r, xs[r]).value in IndexedFilterMap(xs, g)
  {
    if xs != [] {
      var n := |xs| - 1;
      var front := xs[..n];
      IndexedFilterMapComplete(front, g);
      forall r | 0 <= r < |xs| && g(r, xs[r]).Some? ensures g(r, xs[r]).value in IndexedFilterMap(xs, g) {
        if r < n {
          assert front[r] == xs[r];
          assert g(r, xs[r]).value in IndexedFilterMap(front, g);
        }
      }
    }
  }

  /** Order is kept: what the first `j` elements give is a prefix of the whole,
      and everything after that prefix is given by a position at `j` or later. */
  lemma {:induction false} IndexedFilterMapOrder<A, B>(xs: seq<A>, g: (nat, A) -> Option<B>, j: nat)
    requires j <= |xs|
    ensures IndexedFilterMap(xs[..j], g) <= IndexedFilterMap(xs, g)
    ensures forall m :: |IndexedFilterMap(xs[..j], g)| <= m < |IndexedFilterMap(xs, g)| ==>
      exists r :: j <= r < |xs| && g(r, xs[r]) == Some(IndexedFilterMap(xs, g)[m])
    decreases |xs|
  {
    if j == |xs| {
      assert xs[..j] == xs;
    } else {
      var n := |xs| - 1;
      var front := xs[..n];
      assert xs[..j] == front[..j];
      IndexedFilterMapOrder(front, g, j);
      var whole := IndexedFilterMap(xs, g);
      var prev := IndexedFilterMap(front, g);
      forall m | |IndexedFilterMap(xs[..j], g)| <= m < |whole|
        ensures exists r :: j <= r < |xs| && g(r, xs[r]) == Some(whole[m])
      {
        if m < |prev| {
          var r :| j <= r < |front| && g(r, front[r]) == Some(prev[m]);
          assert front[r] == xs[r];
        } else {
          assert g(n, xs[n]) == Some(whole[m]);
        }
      }
    }
  }
}
