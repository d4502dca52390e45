/** Lists built by appending, element by element, what each element of a
    sequence contributes: the shape of every loop that walks a list and
    appends findings. */
module Lists {

  /** The concatenation of `f(c, x)` over the elements `x` of `xs`, in order. */
  function Concat<C, X, Y>(c: C, xs: seq<X>, f: (C, X) -> seq<Y>): seq<Y>
    decreases |xs|
  {
    if xs == [] then [] else Concat(c, xs[..|xs| - 1], f) + f(c, xs[|xs| - 1])
  }

  lemma {:induction false} ConcatAppend<C, X, Y>(c: C, a: seq<X>, b: seq<X>, f: (C, X) -> seq<Y>)
    ensures Concat(c, a + b, f) == Concat(c, a, f) + Concat(c, b, f)
    decreases |b|
  {
    if b == [] {
      assert a + b == a;
    } else {
      var n := |b| - 1;
      assert (a + b)[..|a + b| - 1] == a + b[..n];
      assert (a + b)[|a + b| - 1] == b[n];
      ConcatAppend(c, a, b[..n], f);
    }
  }

  lemma ConcatSingle<C, X, Y>(c: C, x: X, f: (C, X) -> seq<Y>)
    ensures Concat(c, [x], f) == f(c, x)
  {
    assert [x][..0] == [];
  }

  /** The concatenation seen from the front. */
  lemma ConcatFront<C, X, Y>(c: C, xs: seq<X>, f: (C, X) -> seq<Y>)
    requires xs != []
    ensures Concat(c, xs, f) == f(c, xs[0]) + Concat(c, xs[1..], f)
  {
    assert xs == [xs[0]] + xs[1..];
    ConcatAppend(c, [xs[0]], xs[1..], f);
    ConcatSingle(c, xs[0], f);
  }

  lemma ConcatStep<C, X, Y>(c: C, xs: seq<X>, i: nat, f: (C, X) -> seq<Y>)
    requires i < |xs|
    ensures Concat(c, xs[..i + 1], f) == Concat(c, xs[..i], f) + f(c, xs[i])
  {
    assert xs[..i + 1][..i] == xs[..i];
  }

  /** The same step seen from a loop that appends to a list `w` it was given. */
  lemma ConcatStepAfter<C, X, Y>(w: seq<Y>, c: C, xs: seq<X>, i: nat, f: (C, X) -> seq<Y>)
    requires i < |xs|
    ensures w + Concat(c, xs[..i + 1], f) == w + Concat(c, xs[..i], f) + f(c, xs[i])
  {
    ConcatStep(c, xs, i, f);
    Associative(w, Concat(c, xs[..i], f), f(c, xs[i]));
  }

  lemma Associative<Y>(a: seq<Y>, b: seq<Y>, c: seq<Y>)
    ensures a + (b + c) == a + b + c
  {
  }

  /** An element of the concatenation comes from some element of `xs`. */
  lemma {:induction false} ConcatMember<C, X, Y>(c: C, xs: seq<X>, f: (C, X) -> seq<Y>, y: Y)
    ensures y in Concat(c, xs, f) <==> exists i :: 0 <= i < |xs| && y in f(c, xs[i])
    decreases |xs|
  {
    if xs != [] {
      var n := |xs| - 1;
      var init := xs[..n];
      ConcatMember(c, init, f, y);
      if y in Concat(c, init, f) {
        var i :| 0 <= i < |init| && y in f(c, init[i]);
        assert xs[i] == init[i];
      }
      if exists i :: 0 <= i < |xs| && y in f(c, xs[i]) {
        var i :| 0 <= i < |xs| && y in f(c, xs[i]);
        if i < n {
          assert init[i] == xs[i];
        }
      }
    }
  }

  /** When every element contributes nothing, nothing is built. */
  lemma {:induction false} ConcatNone<C, X, Y>(c: C, xs: seq<X>, f: (C, X) -> seq<Y>)
    requires forall i :: 0 <= i < |xs| ==> f(c, xs[i]) == []
    ensures Concat(c, xs, f) == []
    decreases |xs|
  {
    if xs != [] {
      var init := xs[..|xs| - 1];
      assert forall i :: 0 <= i < |init| ==> init[i] == xs[i];
      ConcatNone(c, init, f);
    }
  }

  /** When every element contributes itself, the sequence is rebuilt. */
  lemma {:induction false} ConcatIdentity<C, X>(c: C, xs: seq<X>, f: (C, X) -> seq<X>)
    requires forall i :: 0 <= i < |xs| ==> f(c, xs[i]) == [xs[i]]
    ensures Concat(c, xs, f) == xs
    decreases |xs|
  {
    if xs != [] {
      var n := |xs| - 1;
      var init := xs[..n];
      assert forall i :: 0 <= i < |init| ==> init[i] == xs[i];
      ConcatIdentity(c, init, f);
      assert init + [xs[n]] == xs;
    }
  }

  /** When `f` and `g` split each element between them, their concatenations
      split the whole sequence. */
  lemma {:induction false} ConcatPartition<C, X>(c: C, xs: seq<X>, f: (C, X) -> seq<X>, g: (C, X) -> seq<X>)
    requires forall i :: 0 <= i < |xs| ==> multiset(f(c, xs[i])) + multiset(g(c, xs[i])) == multiset{xs[i]}
    ensures multiset(Concat(c, xs, f)) + multiset(Concat(c, xs, g)) == multiset(xs)
    decreases |xs|
  {
    if xs != [] {
      var n := |xs| - 1;
      var init := xs[..n];
      assert forall i :: 0 <= i < |init| ==> init[i] == xs[i];
      ConcatPartition(c, init, f, g);
      var k, m := Concat(c, init, f), Concat(c, init, g);
      var a, b := f(c, xs[n]), g(c, xs[n]);
      assert Concat(c, xs, f) == k + a && Concat(c, xs, g) == m + b;
      assert multiset(k + a) == multiset(k) + multiset(a);
      assert multiset(m + b) == multiset(m) + multiset(b);
      MultisetShuffle(multiset(k), multiset(a), multiset(m), multiset(b));
      assert xs == init + [xs[n]];
      assert multiset(xs) == multiset(init) + multiset{xs[n]};
    }
  }

  lemma MultisetShuffle<X>(k: multiset<X>, a: multiset<X>, m: multiset<X>, b: multiset<X>)
    ensures (k + a) + (m + b) == (k + m) + (a + b)
  {
  }

  /** The concatenation of `f(c, i, xs[i])` over the positions `i` of `xs`. */
  function Flat<C, X, Y>(c: C, xs: seq<X>, f: (C, nat, X) -> seq<Y>): seq<Y>
    decreases |xs|
  {
    if xs == [] then [] else Flat(c, xs[..|xs| - 1], f) + f(c, |xs| - 1, xs[|xs| - 1])
  }

  lemma FlatStep<C, X, Y>(c: C, xs: seq<X>, i: nat, f: (C, nat, X) -> seq<Y>)
    requires i < |xs|
    ensures Flat(c, xs[..i + 1], f) == Flat(c, xs[..i], f) + f(c, i, xs[i])
  {
    assert xs[..i + 1][..i] == xs[..i];
  }

  lemma FlatStepAfter<C, X, Y>(w: seq<Y>, c: C, xs: seq<X>, i: nat, f: (C, nat, X) -> seq<Y>)
    requires i < |xs|
    ensures w + Flat(c, xs[..i + 1], f) == w + Flat(c, xs[..i], f) + f(c, i, xs[i])
  {
    FlatStep(c, xs, i, f);
    Associative(w, Flat(c, xs[..i], f), f(c, i, xs[i]));
  }

  lemma {:induction false} FlatMember<C, X, Y>(c: C, xs: seq<X>, f: (C, nat, X) -> seq<Y>, y: Y)
    ensures y in Flat(c, xs, f) <==> exists i :: 0 <= i < |xs| && y in f(c, i, xs[i])
    decreases |xs|
  {
    if xs != [] {
      var n := |xs| - 1;
      var init := xs[..n];
      FlatMember(c, init, f, y);
      if y in Flat(c, init, f) {
        var i :| 0 <= i < |init| && y in f(c, i, init[i]);
        assert xs[i] == init[i];
      }
      if exists i :: 0 <= i < |xs| && y in f(c, i, xs[i]) {
        var i :| 0 <= i < |xs| && y in f(c, i, xs[i]);
        if i < n {
          assert init[i] == xs[i];
        }
      }
    }
  }

  lemma {:induction false} FlatEmpty<C, X, Y>(c: C, xs: seq<X>, f: (C, nat, X) -> seq<Y>)
    ensures Flat(c, xs, f) == [] <==> forall i :: 0 <= i < |xs| ==> f(c, i, xs[i]) == []
    decreases |xs|
  {
    if xs != [] {
      var init := xs[..|xs| - 1];
      FlatEmpty(c, init, f);
      assert forall i :: 0 <= i < |init| ==> init[i] == xs[i];
    }
  }
}
