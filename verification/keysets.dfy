/** Key-set algebra over the key lists of two documents (db.js `union`,
    `intersect`, `difference`). A document's keys are a sequence without
    duplicates, in the order a `for..in` loop visits them. */
module KeySets {

  /** A property name of a JSON object. */
  type Key = string

  /** No element occurs twice. */
  predicate Distinct<T(==)>(s: seq<T>)
  {
    forall i, j :: 0 <= i < j < |s| ==> s[i] != s[j]
  }

  /** The elements of a sequence, as a set. */
  function Elems(s: seq<Key>): set<Key>
  {
    set x | x in s
  }

  /** The elements of `s` that do not occur in `t`, in `s`'s order. */
  function Without(s: seq<Key>, t: seq<Key>): (r: seq<Key>)
    ensures forall x :: x in r <==> x in s && x !in t
    ensures Distinct(s) ==> Distinct(r)
    ensures |r| <= |s|
  {
    if s == [] then []
    else
      var last := s[|s| - 1];
      var front := Without(s[..|s| - 1], t);
      assert forall x :: x in s <==> x in s[..|s| - 1] || x == last;
      if last in t then front else front + [last]
  }

  /** The elements of `s` that also occur in `t`, in `s`'s order. */
  function Within(s: seq<Key>, t: seq<Key>): (r: seq<Key>)
    ensures forall x :: x in r <==> x in s && x in t
    ensures Distinct(s) ==> Distinct(r)
    ensures |r| <= |s|
  {
    if s == [] then []
    else
      var last := s[|s| - 1];
      var front := Within(s[..|s| - 1], t);
      assert forall x :: x in s <==> x in s[..|s| - 1] || x == last;
      if last in t then front + [last] else front
  }

  /** `union(A, B)`: A's keys in order, then B's keys that A lacks, in B's order. */
  function UnionOf(a: seq<Key>, b: seq<Key>): seq<Key>
  {
    a + Without(b, a)
  }

  /** `intersect(A, B)`: A's keys that B also has, in A's order. */
  function IntersectOf(a: seq<Key>, b: seq<Key>): seq<Key>
  {
    Within(a, b)
  }

  /** `difference(A, B)`: A's keys that B lacks, then B's keys that A lacks. */
  function DifferenceOf(a: seq<Key>, b: seq<Key>): seq<Key>
  {
    Without(a, b) + Without(b, a)
  }

  /** Filtering against two lists that agree on the elements of `s` gives the same result. */
  lemma {:induction false} WithoutAgrees(s: seq<Key>, t: seq<Key>, u: seq<Key>)
    requires forall x :: x in s ==> (x in t <==> x in u)
    ensures Without(s, t) == Without(s, u)
  {
    if s != [] {
      assert forall x :: x in s[..|s| - 1] ==> x in s;
      WithoutAgrees(s[..|s| - 1], t, u);
    }
  }

  /** Two sequences without duplicates whose elements do not overlap concatenate without duplicates. */
  lemma DistinctConcat(s: seq<Key>, t: seq<Key>)
    requires Distinct(s) && Distinct(t)
    requires forall x :: x in s ==> x !in t
    ensures Distinct(s + t)
  {
    forall i, j | 0 <= i < j < |s + t|
      ensures (s + t)[i] != (s + t)[j]
    {
      if i < |s| && |s| <= j {
        assert (s + t)[i] in s && (s + t)[j] in t;
      }
    }
  }

  /** The union keeps A's keys in front, has no duplicates, and holds
      exactly the keys of A and of B. */
  lemma UnionSpec(a: seq<Key>, b: seq<Key>)
    requires Distinct(a) && Distinct(b)
    ensures UnionOf(a, b)[..|a|] == a
    ensures Distinct(UnionOf(a, b))
    ensures forall x :: x in UnionOf(a, b) <==> x in a || x in b
  {
    DistinctConcat(a, Without(b, a));
  }

  /** The intersection has no duplicates and holds exactly the keys common to A and B. */
  lemma IntersectSpec(a: seq<Key>, b: seq<Key>)
    requires Distinct(a)
    ensures Distinct(IntersectOf(a, b))
    ensures forall x :: x in IntersectOf(a, b) <==> x in a && x in b
  {
  }

  /** The symmetric difference has no duplicates and holds exactly the keys
      that are in one document and not the other. */
  lemma DifferenceSpec(a: seq<Key>, b: seq<Key>)
    requires Distinct(a) && Distinct(b)
    ensures Distinct(DifferenceOf(a, b))
    ensures forall x :: x in DifferenceOf(a, b) <==> (x in a) != (x in b)
  {
    DistinctConcat(Without(a, b), Without(b, a));
  }

  /** Intersection and difference share no key, and together they hold
      exactly the keys of the union. */
  lemma IntersectDifferencePartitionUnion(a: seq<Key>, b: seq<Key>)
    ensures Elems(IntersectOf(a, b)) !! Elems(DifferenceOf(a, b))
    ensures Elems(IntersectOf(a, b)) + Elems(DifferenceOf(a, b)) == Elems(UnionOf(a, b))
  {
    var i, d, u := IntersectOf(a, b), DifferenceOf(a, b), UnionOf(a, b);
    assert forall x :: x in d <==> x in Without(a, b) || x in Without(b, a);
    assert forall x :: x in u <==> x in a || x in Without(b, a);
    assert Elems(i) + Elems(d) == Elems(u) by {
      forall x ensures x in Elems(i) + Elems(d) <==> x in Elems(u) {
        assert x in Elems(i) <==> x in i;
        assert x in Elems(d) <==> x in d;
        assert x in Elems(u) <==> x in u;
      }
    }
  }

  /** The loop of db.js `union`: push every key of A, then every key of B
      that the result does not hold yet. */
  method Union(a: seq<Key>, b: seq<Key>) returns (r: seq<Key>)
    requires Distinct(b)
    ensures r == UnionOf(a, b)
  {
    r := [];
    for i := 0 to |a|
      invariant r == a[..i]
    {
      r := r + [a[i]];
    }
    assert a[..|a|] == a;
    for j := 0 to |b|
      invariant r == a + Without(b[..j], a)
    {
      assert b[..j + 1][..j] == b[..j];
      assert b[j] !in b[..j];
      if b[j] !in r {
        r := r + [b[j]];
      }
    }
    assert b[..|b|] == b;
  }

  /** The nested loops of db.js `intersect`: for each key of A, scan B's keys
      and push the key when they are equal. */
  method Intersect(a: seq<Key>, b: seq<Key>) returns (r: seq<Key>)
    requires Distinct(b)
    ensures r == IntersectOf(a, b)
  {
    r := [];
    for i := 0 to |a|
      invariant r == Within(a[..i], b)
    {
      assert a[..i + 1][..i] == a[..i];
      for j := 0 to |b|
        invariant r == Within(a[..i], b) + (if a[i] in b[..j] then [a[i]] else [])
      {
        assert b[..j + 1] == b[..j] + [b[j]];
        if a[i] == b[j] {
          assert a[i] !in b[..j];
          r := r + [a[i]];
        }
      }
      assert b[..|b|] == b;
    }
    assert a[..|a|] == a;
  }

  /** The loops of db.js `difference`: collect the shared keys as `intersect`
      does, then push A's keys that are not shared, then B's. */
  method Difference(a: seq<Key>, b: seq<Key>) returns (r: seq<Key>)
    requires Distinct(b)
    ensures r == DifferenceOf(a, b)
  {
    var similar := Intersect(a, b);
    r := [];
    for i := 0 to |a|
      invariant r == Without(a[..i], similar)
    {
      assert a[..i + 1][..i] == a[..i];
      if a[i] !in similar {
        r := r + [a[i]];
      }
    }
    assert a[..|a|] == a;
    ghost var front := r;
    for j := 0 to |b|
      invariant r == front + Without(b[..j], similar)
    {
      assert b[..j + 1][..j] == b[..j];
      if b[j] !in similar {
        r := r + [b[j]];
      }
    }
    assert b[..|b|] == b;
    WithoutAgrees(a, similar, b);
    WithoutAgrees(b, similar, a);
  }

  /** The example pair of documents: one with `firstname` and `email`, one
      with `firstname` and `username`. */
  lemma ExampleKeys()
    ensures UnionOf(["firstname", "email"], ["firstname", "username"]) == ["firstname", "email", "username"]
    ensures IntersectOf(["firstname", "email"], ["firstname", "username"]) == ["firstname"]
    ensures DifferenceOf(["firstname", "email"], ["firstname", "username"]) == ["email", "username"]
  {
    var a: seq<string>, b: seq<string> := ["firstname", "email"], ["firstname", "username"];
    assert a[..1] == ["firstname"] && b[..1] == ["firstname"];
    assert "email" != "firstname" && "username" != "firstname" && "email" != "username";
  }
}
