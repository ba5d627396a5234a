/** The order of strings the store sorts and compares by. */
module Order {
  import opened Common

  predicate Leq(a: string, b: string) {
    a == [] || (b != [] && (a[0] < b[0] || (a[0] == b[0] && Leq(a[1..], b[1..]))))
  }

  predicate Less(a: string, b: string) {
    Leq(a, b) && a != b
  }

  lemma {:induction false} LeqTotal(a: string, b: string)
    ensures Leq(a, b) || Leq(b, a)
  {
    if a != [] && b != [] {
      LeqTotal(a[1..], b[1..]);
    }
  }

  lemma {:induction false} LeqAntisymmetric(a: string, b: string)
    requires Leq(a, b) && Leq(b, a)
    ensures a == b
  {
    if a != [] && b != [] {
      LeqAntisymmetric(a[1..], b[1..]);
      assert a == [a[0]] + a[1..] && b == [b[0]] + b[1..];
    }
  }

  lemma {:induction false} LeqTransitive(a: string, b: string, c: string)
    requires Leq(a, b) && Leq(b, c)
    ensures Leq(a, c)
  {
    if a != [] && b != [] && c != [] && a[0] == b[0] == c[0] {
      LeqTransitive(a[1..], b[1..], c[1..]);
    }
  }

  ghost predicate IsSmallest(s: set<Id>, x: Id) {
    x in s && forall y | y in s :: Leq(x, y)
  }

  lemma SmallestExists(s: set<Id>)
    requires s != {}
    ensures exists x :: IsSmallest(s, x)
  {
    var y :| y in s;
    LeqTotal(y, y);
    if s == {y} {
      assert IsSmallest(s, y);
    } else {
      SmallestExists(s - {y});
      var z :| IsSmallest(s - {y}, z);
      LeqTotal(y, z);
      var x := if Leq(y, z) then y else z;
      forall w | w in s
        ensures Leq(x, w)
      {
        if w != y && Leq(y, z) {
          assert Leq(z, w);
          LeqTransitive(y, z, w);
        }
      }
      assert IsSmallest(s, x);
    }
  }

  /** The first of a set of ids in the order they are sorted. */
  ghost function Smallest(s: set<Id>): (x: Id)
    requires s != {}
    ensures IsSmallest(s, x)
  {
    SmallestExists(s);
    var x :| IsSmallest(s, x);
    x
  }

  /** The first of a set of ids, by one pass. */
  method FindSmallest(s: set<Id>) returns (x: Id)
    requires s != {}
    ensures IsSmallest(s, x)
  {
    x :| x in s;
    LeqTotal(x, x);
    var left := s - {x};
    while left != {}
      invariant left <= s && IsSmallest(s - left, x)
      decreases |left|
    {
      var y :| y in left;
      LeqTotal(x, y);
      ghost var before := s - left;
      left := left - {y};
      assert s - left == before + {y};
      if !Leq(x, y) {
        SmallestJoins(before, x, y);
        x := y;
      }
    }
    assert s - left == s;
  }

  lemma SmallestJoins(s: set<Id>, x: Id, y: Id)
    requires IsSmallest(s, x) && Leq(y, x)
    ensures IsSmallest(s + {y}, y)
  {
    LeqTotal(y, y);
    forall z | z in s
      ensures Leq(y, z)
    {
      LeqTransitive(y, x, z);
    }
  }
}
