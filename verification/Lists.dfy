/** Address vectors read as sets: distinctness, counting against another vector, and removal. */
module Lists {

  predicate Distinct<T(==)>(xs: seq<T>) {
    forall i, j :: 0 <= i < j < |xs| ==> xs[i] != xs[j]
  }

  function Members<T>(xs: seq<T>): set<T> {
    set x | x in xs
  }

  /** How many positions of `xs` hold an element of `ys`. */
  function CountIn<T(==)>(xs: seq<T>, ys: seq<T>): nat {
    if xs == [] then 0
    else CountIn(xs[..|xs| - 1], ys) + if xs[|xs| - 1] in ys then 1 else 0
  }

  /** `xs` with every occurrence of `x` dropped. */
  function Without<T(==)>(xs: seq<T>, x: T): seq<T> {
    if xs == [] then []
    else Without(xs[..|xs| - 1], x) + if xs[|xs| - 1] == x then [] else [xs[|xs| - 1]]
  }

  lemma {:induction false} DistinctCard<T>(xs: seq<T>)
    requires Distinct(xs)
    ensures |Members(xs)| == |xs|
  {
    if xs != [] {
      var rest, last := xs[..|xs| - 1], xs[|xs| - 1];
      DistinctCard(rest);
      assert Members(xs) == Members(rest) + {last};
    }
  }

  lemma {:induction false} CountInIsCard<T>(xs: seq<T>, ys: seq<T>)
    requires Distinct(xs)
    ensures CountIn(xs, ys) == |Members(xs) * Members(ys)| <= |xs|
  {
    if xs != [] {
      var rest, last := xs[..|xs| - 1], xs[|xs| - 1];
      CountInIsCard(rest, ys);
      assert Members(xs) == Members(rest) + {last};
      if last in ys {
        assert Members(xs) * Members(ys) == Members(rest) * Members(ys) + {last};
      } else {
        assert Members(xs) * Members(ys) == Members(rest) * Members(ys);
      }
    }
  }

  lemma {:induction false} CountInAll<T>(xs: seq<T>, ys: seq<T>)
    requires forall x :: x in xs ==> x in ys
    ensures CountIn(xs, ys) == |xs|
  {
    if xs != [] {
      CountInAll(xs[..|xs| - 1], ys);
    }
  }

  lemma CardMonotone<T>(a: set<T>, b: set<T>)
    requires a <= b
    ensures |a| <= |b|
  {
    assert b == a + (b - a);
  }

  /** Distinct elements of `ys` found in `xs` bound the count from below. */
  lemma CountInAtLeast<T>(xs: seq<T>, ys: seq<T>, zs: seq<T>)
    requires Distinct(xs) && Distinct(zs)
    requires forall z :: z in zs ==> z in xs && z in ys
    ensures CountIn(xs, ys) >= |zs|
  {
    CountInIsCard(xs, ys);
    DistinctCard(zs);
    CardMonotone(Members(zs), Members(xs) * Members(ys));
  }

  lemma {:induction false} WithoutMembers<T>(xs: seq<T>, x: T)
    ensures forall y :: y in Without(xs, x) <==> y in xs && y != x
    ensures x !in xs ==> Without(xs, x) == xs
  {
    if xs != [] {
      WithoutMembers(xs[..|xs| - 1], x);
      assert xs == xs[..|xs| - 1] + [xs[|xs| - 1]];
    }
  }

  lemma {:induction false} WithoutDistinct<T>(xs: seq<T>, x: T)
    requires Distinct(xs)
    ensures Distinct(Without(xs, x))
    ensures |Without(xs, x)| == if x in xs then |xs| - 1 else |xs|
  {
    if xs != [] {
      WithoutDistinct(xs[..|xs| - 1], x);
      WithoutMembers(xs[..|xs| - 1], x);
      assert xs == xs[..|xs| - 1] + [xs[|xs| - 1]];
      assert xs[|xs| - 1] !in xs[..|xs| - 1];
      assert Without(xs[..|xs| - 1], x) <= Without(xs, x);
    }
  }

  /** `xs` with the first occurrence of `x` dropped. */
  function RemoveFirst<T(==)>(xs: seq<T>, x: T): seq<T> {
    if xs == [] then [] else if xs[0] == x then xs[1..] else [xs[0]] + RemoveFirst(xs[1..], x)
  }

  lemma {:induction false} RemoveFirstAt<T>(xs: seq<T>, x: T, i: nat)
    requires i < |xs| && xs[i] == x && x !in xs[..i]
    ensures RemoveFirst(xs, x) == xs[..i] + xs[i + 1..]
  {
    if i > 0 {
      assert xs[0] in xs[..i];
      assert xs[1..][..i - 1] == xs[1..i];
      RemoveFirstAt(xs[1..], x, i - 1);
    }
  }

  lemma {:induction false} RemoveFirstMembers<T>(xs: seq<T>, x: T)
    requires Distinct(xs) && x in xs
    ensures Distinct(RemoveFirst(xs, x)) && |RemoveFirst(xs, x)| == |xs| - 1
    ensures forall y :: y in RemoveFirst(xs, x) <==> y in xs && y != x
  {
    assert xs == [xs[0]] + xs[1..];
    if xs[0] == x {
      assert x !in xs[1..];
    } else {
      RemoveFirstMembers(xs[1..], x);
      assert RemoveFirst(xs, x) == [xs[0]] + RemoveFirst(xs[1..], x);
      assert xs[0] !in RemoveFirst(xs[1..], x);
    }
  }

  /** `after` is `before` without one position, which holds `x`. */
  ghost predicate TakesOut<T>(before: seq<T>, after: seq<T>, x: T) {
    exists k: nat :: k < |before| && before[k] == x && after == before[..k] + before[k + 1..]
  }

  lemma {:induction false} FirstIndex<T>(xs: seq<T>, x: T) returns (i: nat)
    requires x in xs
    ensures i < |xs| && xs[i] == x && x !in xs[..i]
  {
    var rest := xs[..|xs| - 1];
    if x in rest {
      i := FirstIndex(rest, x);
      assert rest[..i] == xs[..i];
    } else {
      i := |xs| - 1;
      assert xs == rest + [xs[i]];
    }
  }

  lemma RemoveFirstTakesOut<T>(xs: seq<T>, x: T)
    requires x in xs
    ensures TakesOut(xs, RemoveFirst(xs, x), x)
  {
    hide RemoveFirst;
    var i := FirstIndex(xs, x);
    RemoveFirstAt(xs, x, i);
  }

  lemma {:induction false} WithoutAt<T>(xs: seq<T>, x: T) returns (k: nat)
    requires Distinct(xs) && x in xs
    ensures k < |xs| && xs[k] == x && Without(xs, x) == xs[..k] + xs[k + 1..]
  {
    var rest, last := xs[..|xs| - 1], xs[|xs| - 1];
    assert xs == rest + [last];
    if last == x {
      k := |xs| - 1;
      WithoutMembers(rest, x);
    } else {
      k := WithoutAt(rest, x);
    }
  }

  /** Without repeats, dropping every occurrence takes out the only one. */
  lemma WithoutTakesOut<T>(xs: seq<T>, x: T)
    requires Distinct(xs) && x in xs
    ensures TakesOut(xs, Without(xs, x), x)
  {
    var k := WithoutAt(xs, x);
  }
}
