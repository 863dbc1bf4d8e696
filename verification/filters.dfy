/** The `filter` expressions of the routes: keep the elements whose id differs
    from a given one (deleting a pokemon or a comment), or those whose id equals
    it (looking a pokemon up). */
module Filters {
  import opened Values

  /** `xs.filter(x => x._id != id)` */
  function Without<T(==, !new)>(xs: seq<T>, idOf: T -> Id, id: Id): (r: seq<T>)
    ensures |r| <= |xs|
    ensures forall x :: x in r <==> x in xs && idOf(x) != id
  {
    if xs == [] then []
    else if idOf(xs[0]) != id then [xs[0]] + Without(xs[1..], idOf, id)
    else Without(xs[1..], idOf, id)
  }

  /** `xs.filter(x => x._id == id)` */
  function WithId<T(==, !new)>(xs: seq<T>, idOf: T -> Id, id: Id): (r: seq<T>)
    ensures |r| <= |xs|
    ensures forall x :: x in r <==> x in xs && idOf(x) == id
  {
    if xs == [] then []
    else if idOf(xs[0]) == id then [xs[0]] + WithId(xs[1..], idOf, id)
    else WithId(xs[1..], idOf, id)
  }

  /** Deleting an id that no element carries changes nothing. */
  lemma {:induction false} WithoutUnknown<T(!new)>(xs: seq<T>, idOf: T -> Id, id: Id)
    requires forall x | x in xs :: idOf(x) != id
    ensures Without(xs, idOf, id) == xs
  {
    if xs != [] {
      assert xs[0] in xs;
      assert forall x | x in xs[1..] :: x in xs;
      WithoutUnknown(xs[1..], idOf, id);
      assert xs == [xs[0]] + xs[1..];
    }
  }

  /** Deleting twice is deleting once. */
  lemma WithoutIdempotent<T(!new)>(xs: seq<T>, idOf: T -> Id, id: Id)
    ensures Without(Without(xs, idOf, id), idOf, id) == Without(xs, idOf, id)
  {
    WithoutUnknown(Without(xs, idOf, id), idOf, id);
  }

  /** The filter works element by element, so the kept elements stay in their
      original order: filtering a concatenation filters each part. */
  lemma {:induction false} WithoutConcat<T(!new)>(a: seq<T>, b: seq<T>, idOf: T -> Id, id: Id)
    ensures Without(a + b, idOf, id) == Without(a, idOf, id) + Without(b, idOf, id)
  {
    if a == [] {
      assert a + b == b;
    } else {
      assert (a + b)[0] == a[0];
      assert (a + b)[1..] == a[1..] + b;
      WithoutConcat(a[1..], b, idOf, id);
    }
  }

  /** The same for the lookup. */
  lemma {:induction false} WithIdConcat<T(!new)>(a: seq<T>, b: seq<T>, idOf: T -> Id, id: Id)
    ensures WithId(a + b, idOf, id) == WithId(a, idOf, id) + WithId(b, idOf, id)
  {
    if a == [] {
      assert a + b == b;
    } else {
      assert (a + b)[0] == a[0];
      assert (a + b)[1..] == a[1..] + b;
      WithIdConcat(a[1..], b, idOf, id);
    }
  }

  /** The elements a delete drops are exactly those the lookup selects: the two
      filters split the list without losing or duplicating an element. */
  lemma {:induction false} SplitById<T(!new)>(xs: seq<T>, idOf: T -> Id, id: Id)
    ensures multiset(Without(xs, idOf, id)) + multiset(WithId(xs, idOf, id)) == multiset(xs)
  {
    if xs != [] {
      SplitById(xs[1..], idOf, id);
      assert xs == [xs[0]] + xs[1..];
    }
  }
}
