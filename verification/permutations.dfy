/**
 Lists up to order: taking an element out, putting chosen ones first, and mapping
 a function over every order of a list.
 */
module Permutations {

  lemma SameMembers<T>(p: seq<T>, q: seq<T>)
    requires multiset(p) == multiset(q)
    ensures forall x :: x in p <==> x in q
  {
    forall x ensures x in p <==> x in q {
      assert x in p <==> x in multiset(p);
      assert x in q <==> x in multiset(q);
    }
  }

  /** xs without its element at i. */
  function Without<T>(xs: seq<T>, i: nat): seq<T>
    requires i < |xs|
  {
    xs[..i] + xs[i + 1..]
  }

  lemma WithoutFirst<T>(xs: seq<T>, i: nat)
    requires i < |xs|
    ensures multiset([xs[i]] + Without(xs, i)) == multiset(xs)
  {
    assert xs == xs[..i] + [xs[i]] + xs[i + 1..];
  }

  lemma SamePrefix<T>(x: T, p: seq<T>, q: seq<T>)
    requires multiset(p) == multiset(q)
    ensures multiset([x] + p) == multiset([x] + q)
  {
  }

  lemma SameLast<T>(x: T, p: seq<T>, q: seq<T>)
    requires multiset(p) == multiset(q)
    ensures multiset(p + [x]) == multiset([x] + q)
  {
  }

  lemma IndexOf<T>(xs: seq<T>, x: T) returns (i: nat)
    requires x in xs
    ensures i < |xs| && xs[i] == x
  {
    i :| i < |xs| && xs[i] == x;
  }

  /** Any element can come first. */
  lemma OneFirst<T>(xs: seq<T>, x: T) returns (rest: seq<T>)
    requires x in xs
    ensures multiset([x] + rest) == multiset(xs)
    ensures forall y :: y in xs && y != x ==> y in rest
  {
    var i := IndexOf(xs, x);
    rest := Without(xs, i);
    WithoutFirst(xs, i);
    forall y | y in xs && y != x ensures y in rest {
      assert y in multiset([x] + rest) && y in [x] + rest;
    }
  }

  /** Any two elements can come first. */
  lemma PairFirst<T>(xs: seq<T>, x: T, y: T) returns (rest: seq<T>)
    requires x in xs && y in xs && x != y
    ensures multiset([x, y] + rest) == multiset(xs)
  {
    var others := OneFirst(xs, x);
    rest := OneFirst(others, y);
    SamePrefix(x, [y] + rest, others);
    assert [x] + ([y] + rest) == [x, y] + rest;
  }

  /** Any three elements can come first. */
  lemma ThreeFirst<T>(xs: seq<T>, x: T, y: T, z: T) returns (rest: seq<T>)
    requires x in xs && y in xs && z in xs && x != y && y != z && x != z
    ensures multiset([x, y, z] + rest) == multiset(xs)
  {
    var others := OneFirst(xs, x);
    rest := PairFirst(others, y, z);
    SamePrefix(x, [y, z] + rest, others);
    assert [x] + ([y, z] + rest) == [x, y, z] + rest;
  }

  function Mapped<T>(f: T -> T, xs: seq<T>): (r: seq<T>)
    ensures |r| == |xs| && forall i :: 0 <= i < |r| ==> r[i] == f(xs[i])
  {
    if xs == [] then [] else [f(xs[0])] + Mapped(f, xs[1..])
  }

  lemma MappedConcat<T>(f: T -> T, xs: seq<T>, ys: seq<T>)
    ensures Mapped(f, xs + ys) == Mapped(f, xs) + Mapped(f, ys)
  {
  }

  lemma MappedTake<T>(f: T -> T, xs: seq<T>, i: nat)
    requires i <= |xs|
    ensures Mapped(f, xs[..i]) == Mapped(f, xs)[..i]
  {
  }

  lemma MappedDrop<T>(f: T -> T, xs: seq<T>, i: nat)
    requires i <= |xs|
    ensures Mapped(f, xs[i..]) == Mapped(f, xs)[i..]
  {
  }

  lemma MappedWithout<T>(f: T -> T, xs: seq<T>, i: nat)
    requires i < |xs|
    ensures Mapped(f, Without(xs, i)) == Without(Mapped(f, xs), i)
  {
    calc {
      Mapped(f, Without(xs, i));
    == { MappedConcat(f, xs[..i], xs[i + 1..]); }
      Mapped(f, xs[..i]) + Mapped(f, xs[i + 1..]);
    == { MappedTake(f, xs, i); MappedDrop(f, xs, i + 1); }
      Without(Mapped(f, xs), i);
    }
  }

  lemma SameRest<T>(x: T, p: seq<T>, q: seq<T>)
    requires multiset([x] + p) == multiset([x] + q)
    ensures multiset(p) == multiset(q)
  {
    assert multiset([x] + p) == multiset([x]) + multiset(p);
    assert multiset([x] + q) == multiset([x]) + multiset(q);
    assert multiset([x]) + multiset(p) - multiset([x]) == multiset(p);
    assert multiset([x]) + multiset(q) - multiset([x]) == multiset(q);
  }

  lemma HeadFound<T>(p: seq<T>, q: seq<T>) returns (i: nat)
    requires p != [] && multiset(p) == multiset(q)
    ensures i < |q| && q[i] == p[0] && multiset(p[1..]) == multiset(Without(q, i))
  {
    SameMembers(p, q);
    assert p[0] in p;
    i := IndexOf(q, p[0]);
    assert [p[0]] + p[1..] == p;
    WithoutFirst(q, i);
    SameRest(p[0], p[1..], Without(q, i));
  }

  lemma SameSize<T>(p: seq<T>, q: seq<T>)
    requires multiset(p) == multiset(q)
    ensures |p| == |q|
  {
    assert |p| == |multiset(p)| && |q| == |multiset(q)|;
  }

  lemma {:induction false} MappedPermuted<T>(f: T -> T, p: seq<T>, q: seq<T>)
    requires multiset(p) == multiset(q)
    ensures multiset(Mapped(f, p)) == multiset(Mapped(f, q))
    decreases |p|
  {
    SameSize(p, q);
    if p != [] {
      var i := HeadFound(p, q);
      MappedPermuted(f, p[1..], Without(q, i));
      MappedWithout(f, q, i);
      WithoutFirst(Mapped(f, q), i);
      SamePrefix(f(p[0]), Mapped(f, p[1..]), Without(Mapped(f, q), i));
    }
  }

  lemma MappedCons<T>(f: T -> T, x: T, xs: seq<T>)
    ensures Mapped(f, [x] + xs) == [f(x)] + Mapped(f, xs)
  {
    assert ([x] + xs)[1..] == xs;
  }

  lemma LiftedCons<T>(f: T -> T, xs: seq<T>, images: seq<T>, i: nat, rest: seq<T>)
    requires i < |xs| && images != [] && images[0] == f(xs[i])
    requires multiset(rest) == multiset(Without(xs, i)) && Mapped(f, rest) == images[1..]
    ensures multiset([xs[i]] + rest) == multiset(xs) && Mapped(f, [xs[i]] + rest) == images
  {
    WithoutFirst(xs, i);
    SamePrefix(xs[i], rest, Without(xs, i));
    MappedCons(f, xs[i], rest);
    assert images == [images[0]] + images[1..];
  }

  /** Every order of the images is the image of some order. */
  lemma {:induction false} MappedLifted<T>(f: T -> T, xs: seq<T>, images: seq<T>) returns (p: seq<T>)
    requires multiset(images) == multiset(Mapped(f, xs))
    ensures multiset(p) == multiset(xs) && Mapped(f, p) == images
    decreases |images|
  {
    SameSize(images, Mapped(f, xs));
    if images == [] {
      p := xs;
    } else {
      var i := HeadFound(images, Mapped(f, xs));
      MappedWithout(f, xs, i);
      var rest := MappedLifted(f, Without(xs, i), images[1..]);
      LiftedCons(f, xs, images, i, rest);
      p := [xs[i]] + rest;
    }
  }
}
