/** Finite sums over sequences: the SQL aggregates and the Python `sum` calls
    of the platform are all instances of `Sum`. */
module Sums {
  datatype Option<+T> = None | Some(value: T)

  function Sum<T>(xs: seq<T>, f: T -> int): int {
    if xs == [] then 0 else Sum(xs[..|xs| - 1], f) + f(xs[|xs| - 1])
  }

  lemma SumAppend<T>(xs: seq<T>, x: T, f: T -> int)
    ensures Sum(xs + [x], f) == Sum(xs, f) + f(x)
  {
    assert (xs + [x])[..|xs|] == xs;
  }

  lemma {:induction false} SumConcat<T>(xs: seq<T>, ys: seq<T>, f: T -> int)
    ensures Sum(xs + ys, f) == Sum(xs, f) + Sum(ys, f)
  {
    if ys == [] {
      assert xs + ys == xs;
    } else {
      var init, last := ys[..|ys| - 1], ys[|ys| - 1];
      SumConcat(xs, init, f);
      assert xs + ys == (xs + init) + [last];
      SumAppend(xs + init, last, f);
    }
  }

  lemma {:induction false} SumAdds<T>(xs: seq<T>, f: T -> int, g: T -> int, h: T -> int)
    requires forall x :: x in xs ==> h(x) == f(x) + g(x)
    ensures Sum(xs, h) == Sum(xs, f) + Sum(xs, g)
  {
    if xs != [] {
      var init := xs[..|xs| - 1];
      assert xs[|xs| - 1] in xs;
      assert forall x :: x in init ==> x in xs;
      SumAdds(init, f, g, h);
    }
  }

  lemma {:induction false} SumSame<T>(xs: seq<T>, f: T -> int, g: T -> int)
    requires forall x :: x in xs ==> f(x) == g(x)
    ensures Sum(xs, f) == Sum(xs, g)
  {
    if xs != [] {
      var init := xs[..|xs| - 1];
      assert xs[|xs| - 1] in xs;
      assert forall x :: x in init ==> x in xs;
      SumSame(init, f, g);
    }
  }

  lemma {:induction false} SumNil<T>(xs: seq<T>, f: T -> int)
    requires forall x :: x in xs ==> f(x) == 0
    ensures Sum(xs, f) == 0
  {
    if xs != [] {
      var init := xs[..|xs| - 1];
      assert xs[|xs| - 1] in xs;
      assert forall x :: x in init ==> x in xs;
      SumNil(init, f);
    }
  }

  lemma {:induction false} SumNatural<T>(xs: seq<T>, f: T -> int)
    requires forall x :: x in xs ==> f(x) >= 0
    ensures Sum(xs, f) >= 0
    ensures forall x :: x in xs ==> f(x) <= Sum(xs, f)
  {
    if xs != [] {
      var init := xs[..|xs| - 1];
      assert xs[|xs| - 1] in xs;
      assert forall x :: x in init ==> x in xs;
      SumNatural(init, f);
      assert forall x :: x in xs ==> x in init || x == xs[|xs| - 1];
    }
  }

  function Without<T>(xs: seq<T>, i: nat): seq<T>
    requires i < |xs|
  {
    xs[..i] + xs[i + 1..]
  }

  lemma SumFromFront<T>(x: T, rest: seq<T>, f: T -> int)
    ensures Sum([x] + rest, f) == f(x) + Sum(rest, f)
  {
    SumConcat([x], rest, f);
    assert [x][..0] == [];
  }

  lemma SumInMiddle<T>(before: seq<T>, x: T, after: seq<T>, f: T -> int)
    ensures Sum(before + ([x] + after), f) == Sum(before + after, f) + f(x)
  {
    SumConcat(before, [x] + after, f);
    SumFromFront(x, after, f);
    SumConcat(before, after, f);
  }

  lemma SplitAt<T>(xs: seq<T>, i: nat)
    requires i < |xs|
    ensures xs[..i] + ([xs[i]] + xs[i + 1..]) == xs
  {
  }

  /** Taking one element out takes away its own term. */
  lemma SumWithoutOne<T>(xs: seq<T>, i: nat, f: T -> int)
    requires i < |xs|
    ensures Sum(xs, f) == Sum(Without(xs, i), f) + f(xs[i])
  {
    SplitAt(xs, i);
    SumInMiddle(xs[..i], xs[i], xs[i + 1..], f);
  }

  lemma ContentsWithout<T>(xs: seq<T>, i: nat)
    requires i < |xs|
    ensures multiset(Without(xs, i)) == multiset(xs) - multiset{xs[i]}
  {
    assert xs == (xs[..i] + [xs[i]]) + xs[i + 1..];
  }

  lemma {:induction false} SumIgnoresOrder<T>(xs: seq<T>, ys: seq<T>, f: T -> int)
    requires multiset(xs) == multiset(ys)
    ensures Sum(xs, f) == Sum(ys, f)
  {
    if xs == [] {
      assert |multiset(ys)| == 0;
    } else {
      assert xs[0] in multiset(ys);
      var i :| 0 <= i < |ys| && ys[i] == xs[0];
      ContentsWithout(xs, 0);
      ContentsWithout(ys, i);
      SumIgnoresOrder(Without(xs, 0), Without(ys, i), f);
      SumWithoutOne(xs, 0, f);
      SumWithoutOne(ys, i, f);
    }
  }
}
