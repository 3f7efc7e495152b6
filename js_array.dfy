/** `Array.prototype.filter` over a sequence, with the facts the dashboard uses. */
module JsArray {

  /** `xs.filter(p)`: the elements of `xs` that satisfy `p`, in their order. */
  function Filter<T>(xs: seq<T>, p: T -> bool): (r: seq<T>)
    ensures |r| <= |xs|
    ensures forall k :: 0 <= k < |r| ==> p(r[k]) && r[k] in xs
    decreases |xs|
  {
    if xs == [] then []
    else
      var init, last := xs[..|xs| - 1], xs[|xs| - 1];
      assert xs == init + [last];
      Filter(init, p) + (if p(last) then [last] else [])
  }

  /** The result is `xs` read at the increasing positions `f`, and `f` lists
      exactly the positions whose element satisfies `p`: nothing is dropped
      that satisfies `p`, nothing is kept that does not, and order is kept. */
  lemma {:induction false} FilterPositions<T>(xs: seq<T>, p: T -> bool) returns (f: seq<nat>)
    ensures |f| == |Filter(xs, p)|
    ensures forall k :: 0 <= k < |f| ==> f[k] < |xs| && xs[f[k]] == Filter(xs, p)[k]
    ensures forall k, l :: 0 <= k < l < |f| ==> f[k] < f[l]
    ensures forall i :: 0 <= i < |xs| ==> (p(xs[i]) <==> i in f)
    decreases |xs|
  {
    if xs == [] {
      f := [];
    } else {
      var init, last := xs[..|xs| - 1], xs[|xs| - 1];
      assert xs == init + [last];
      var g := FilterPositions(init, p);
      if p(last) {
        f := g + [|xs| - 1];
      } else {
        f := g;
      }
    }
  }

  /** Filtering distributes over concatenation. */
  lemma {:induction false} FilterConcat<T>(a: seq<T>, b: seq<T>, p: T -> bool)
    ensures Filter(a + b, p) == Filter(a, p) + Filter(b, p)
    decreases |b|
  {
    if b == [] {
      assert a + b == a;
    } else {
      var init, last := b[..|b| - 1], b[|b| - 1];
      assert b == init + [last];
      assert a + b == (a + init) + [last];
      FilterConcat(a, init, p);
    }
  }

  /** An element is kept exactly when it occurs and satisfies `p`. */
  lemma {:induction false} FilterMembership<T>(xs: seq<T>, p: T -> bool, x: T)
    ensures x in Filter(xs, p) <==> x in xs && p(x)
    decreases |xs|
  {
    if xs != [] {
      var init, last := xs[..|xs| - 1], xs[|xs| - 1];
      assert xs == init + [last];
      FilterMembership(init, p, x);
    }
  }

  /** A predicate that holds everywhere keeps the whole sequence. */
  lemma {:induction false} FilterKeepsAll<T>(xs: seq<T>, p: T -> bool)
    requires forall i :: 0 <= i < |xs| ==> p(xs[i])
    ensures Filter(xs, p) == xs
    decreases |xs|
  {
    if xs != [] {
      var init, last := xs[..|xs| - 1], xs[|xs| - 1];
      assert xs == init + [last];
      assert forall i :: 0 <= i < |init| ==> init[i] == xs[i];
      FilterKeepsAll(init, p);
    }
  }

  /** A predicate that holds nowhere keeps nothing. */
  lemma {:induction false} FilterKeepsNone<T>(xs: seq<T>, p: T -> bool)
    requires forall i :: 0 <= i < |xs| ==> !p(xs[i])
    ensures Filter(xs, p) == []
    decreases |xs|
  {
    if xs != [] {
      var init, last := xs[..|xs| - 1], xs[|xs| - 1];
      assert xs == init + [last];
      assert forall i :: 0 <= i < |init| ==> init[i] == xs[i];
      FilterKeepsNone(init, p);
    }
  }

  /** Two predicates that agree on the elements filter alike. */
  lemma {:induction false} FilterAgree<T>(xs: seq<T>, p: T -> bool, q: T -> bool)
    requires forall i :: 0 <= i < |xs| ==> p(xs[i]) == q(xs[i])
    ensures Filter(xs, p) == Filter(xs, q)
    decreases |xs|
  {
    if xs != [] {
      var init, last := xs[..|xs| - 1], xs[|xs| - 1];
      assert xs == init + [last];
      assert forall i :: 0 <= i < |init| ==> init[i] == xs[i];
      FilterAgree(init, p, q);
    }
  }

  /** A predicate and its negation split the elements between them. */
  lemma {:induction false} FilterComplement<T>(xs: seq<T>, p: T -> bool, q: T -> bool)
    requires forall x :: q(x) == !p(x)
    ensures multiset(Filter(xs, p)) + multiset(Filter(xs, q)) == multiset(xs)
    ensures |Filter(xs, p)| + |Filter(xs, q)| == |xs|
    decreases |xs|
  {
    if xs != [] {
      var init, last := xs[..|xs| - 1], xs[|xs| - 1];
      assert xs == init + [last];
      FilterComplement(init, p, q);
    }
  }

  /** Filtering two elements keeps each one that satisfies `p`. */
  lemma FilterPair<T>(a: T, b: T, p: T -> bool)
    ensures Filter([a, b], p) == (if p(a) then [a] else []) + (if p(b) then [b] else [])
  {
    assert [a, b][..1] == [a] && [a][..0] == [];
  }
}
