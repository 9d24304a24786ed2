/**
 * Sequence operations the sidebar model is built from: the two ways the
 * script takes an element out of an ordered list (a DOM detach removes one
 * node; `Array.prototype.filter` removes every copy) and the predicates used
 * to state what they keep.
 */
module Seqs {

  /** Every element occurs at most once. */
  ghost predicate NoDup<T(!new)>(xs: seq<T>) {
    forall y :: multiset(xs)[y] <= 1
  }

  /** xs with every occurrence of x filtered out; the rest keep their order. */
  function Without<T(==,!new)>(xs: seq<T>, x: T): (r: seq<T>)
    ensures x !in r
    ensures forall y :: y != x ==> multiset(r)[y] == multiset(xs)[y]
    ensures forall y :: y in r <==> y in xs && y != x
    ensures x !in xs ==> r == xs
    decreases |xs|
  {
    if xs == [] then []
    else
      assert xs == [xs[0]] + xs[1..];
      if xs[0] == x then Without(xs[1..], x)
      else [xs[0]] + Without(xs[1..], x)
  }

  /** Filtering distributes over concatenation: the survivors of a keep their place ahead of those of b. */
  lemma {:induction false} WithoutAppend<T(!new)>(a: seq<T>, b: seq<T>, x: T)
    ensures Without(a + b, x) == Without(a, x) + Without(b, x)
    decreases |a|
  {
    if a == [] {
      assert a + b == b;
    } else {
      assert (a + b)[1..] == a[1..] + b;
      assert (a + b)[0] == a[0];
      WithoutAppend(a[1..], b, x);
    }
  }

  /** Position i holds the first occurrence of x in xs. */
  predicate FirstAt<T(==)>(xs: seq<T>, x: T, i: int) {
    0 <= i < |xs| && xs[i] == x && x !in xs[..i]
  }

  /** The position of the first occurrence of x, as a front-to-back search finds it. */
  function IndexOf<T(==)>(xs: seq<T>, x: T): (i: nat)
    requires x in xs
    ensures FirstAt(xs, x, i)
    decreases |xs|
  {
    if xs[0] == x then 0
    else
      var j := IndexOf(xs[1..], x);
      assert xs[..j + 1] == [xs[0]] + xs[1..][..j];
      j + 1
  }

  /** Cutting the element at i out of xs takes one copy of it away and leaves the filtered list alone. */
  lemma CutOut<T(!new)>(xs: seq<T>, i: int)
    requires 0 <= i < |xs|
    ensures multiset(xs[..i] + xs[i + 1..]) == multiset(xs) - multiset{xs[i]}
    ensures Without(xs[..i] + xs[i + 1..], xs[i]) == Without(xs, xs[i])
  {
    Split(xs, i);
    CutOutCount(xs, xs[..i], xs[i], xs[i + 1..]);
    CutOutFiltered(xs, xs[..i], xs[i], xs[i + 1..]);
  }

  /** A list is its part before position i, the element at i and its part after. */
  lemma Split<T>(xs: seq<T>, i: int)
    requires 0 <= i < |xs|
    ensures xs == xs[..i] + ([xs[i]] + xs[i + 1..])
  {
    assert xs[i..] == [xs[i]] + xs[i + 1..];
    assert xs == xs[..i] + xs[i..];
  }

  /** Cutting x out of front + [x] + back takes exactly one copy of x away. */
  lemma CutOutCount<T>(xs: seq<T>, front: seq<T>, x: T, back: seq<T>)
    requires xs == front + ([x] + back)
    ensures multiset(front + back) == multiset(xs) - multiset{x}
  {
    assert multiset(xs) == multiset(front) + multiset{x} + multiset(back);
  }

  /** Filtering x out of front + [x] + back gives the same as filtering it out of front + back. */
  lemma CutOutFiltered<T(!new)>(xs: seq<T>, front: seq<T>, x: T, back: seq<T>)
    requires xs == front + ([x] + back)
    ensures Without(front + back, x) == Without(xs, x)
  {
    WithoutAppend(front, [x] + back, x);
    WithoutAppend([x], back, x);
    WithoutAppend(front, back, x);
    assert Without([x], x) == [];
  }

  /** xs with its first occurrence of x removed, as detaching one DOM node does. */
  function RemoveFirst<T(==,!new)>(xs: seq<T>, x: T): (r: seq<T>)
    ensures multiset(r) == multiset(xs) - multiset{x}
    ensures x in xs ==> |r| == |xs| - 1
    ensures x !in xs ==> r == xs
    ensures forall y :: y != x ==> (y in r <==> y in xs)
    ensures Without(r, x) == Without(xs, x)
    ensures x in xs ==> r == xs[..IndexOf(xs, x)] + xs[IndexOf(xs, x) + 1..]
  {
    if x !in xs then xs
    else
      var i := IndexOf(xs, x);
      CutOut(xs, i);
      var r := xs[..i] + xs[i + 1..];
      assert forall y :: y != x ==> multiset(r)[y] == multiset(xs)[y];
      r
  }

  /** Regrouping a concatenation around a one-element middle. */
  lemma AppendAssoc<T>(p: seq<T>, x: T, k: seq<T>)
    ensures (p + [x]) + k == p + ([x] + k)
  {
  }

  /** The elements of xs that also occur in pool, in the order of xs. */
  function KeepIn<T(==,!new)>(xs: seq<T>, pool: seq<T>): (r: seq<T>)
    ensures forall y :: y in r <==> y in xs && y in pool
    ensures |r| <= |xs|
    decreases |xs|
  {
    if xs == [] then []
    else if xs[0] in pool then [xs[0]] + KeepIn(xs[1..], pool)
    else KeepIn(xs[1..], pool)
  }

  /** KeepIn only looks at membership, so pools with the same members (apart from x, absent from xs) agree. */
  lemma {:induction false} KeepInSamePool<T(!new)>(xs: seq<T>, p: seq<T>, q: seq<T>, x: T)
    requires x !in xs
    requires forall y :: y != x ==> (y in p <==> y in q)
    ensures KeepIn(xs, p) == KeepIn(xs, q)
    decreases |xs|
  {
    if xs != [] {
      assert xs[0] in xs;
      assert forall y :: y in xs[1..] ==> y in xs;
      KeepInSamePool(xs[1..], p, q, x);
    }
  }

  /** Appending an element that is not yet present keeps a duplicate-free list duplicate-free. */
  lemma AppendFreshNoDup<T(!new)>(xs: seq<T>, x: T)
    requires NoDup(xs)
    requires x !in xs
    ensures NoDup(xs + [x])
  {
    assert multiset(xs + [x]) == multiset(xs) + multiset{x};
  }

  /** The tail of a duplicate-free list is duplicate-free and does not contain its head. */
  lemma NoDupTail<T(!new)>(xs: seq<T>)
    requires NoDup(xs) && xs != []
    ensures NoDup(xs[1..]) && xs[0] !in xs[1..]
  {
    assert xs == [xs[0]] + xs[1..];
    assert multiset(xs) == multiset{xs[0]} + multiset(xs[1..]);
    forall y
      ensures multiset(xs[1..])[y] <= 1
    {
      assert multiset(xs)[y] == multiset{xs[0]}[y] + multiset(xs[1..])[y];
    }
    assert multiset(xs)[xs[0]] == 1 + multiset(xs[1..])[xs[0]];
  }
}
