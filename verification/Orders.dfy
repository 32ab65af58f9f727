/** Total orders, the least element of a set, and the sorted list of a set. */
module Orders {
  import opened Common

  ghost predicate TotalOrder<T(!new)>(less: (T, T) -> bool) {
    && (forall x :: !less(x, x))
    && (forall x, y :: x != y ==> less(x, y) || less(y, x))
    && (forall x, y, z :: less(x, y) && less(y, z) ==> less(x, z))
  }

  ghost predicate IsLeast<T(!new)>(less: (T, T) -> bool, s: set<T>, x: T) {
    x in s && forall y :: y in s ==> y == x || less(x, y)
  }

  lemma {:induction false} LeastExists<T(!new)>(less: (T, T) -> bool, s: set<T>) returns (least: T)
    requires TotalOrder(less) && s != {}
    ensures IsLeast(less, s, least)
    decreases |s|
  {
    least :| least in s;
    if s != {least} {
      var other := LeastExists(less, s - {least});
      if less(other, least) {
        least := other;
      }
    }
  }

  function Least<T(!new, ==)>(less: (T, T) -> bool, s: set<T>): (least: T)
    requires TotalOrder(less) && s != {}
    ensures IsLeast(less, s, least)
  {
    assert exists x :: IsLeast(less, s, x) by {
      var x := LeastExists(less, s);
      assert IsLeast(less, s, x);
    }
    var x :| x in s && forall y :: y in s ==> y == x || less(x, y);
    x
  }

  ghost predicate Ascending<T(!new)>(less: (T, T) -> bool, s: seq<T>) {
    forall i, j :: 0 <= i < j < |s| ==> less(s[i], s[j])
  }

  /** The elements of a set, smallest first. */
  function Sorted<T(!new, ==)>(less: (T, T) -> bool, s: set<T>): (list: seq<T>)
    requires TotalOrder(less)
    ensures forall x :: x in list <==> x in s
    ensures Ascending(less, list) && Distinct(list)
    decreases |s|
  {
    if s == {} then [] else
    var x := Least(less, s);
    var rest := Sorted(less, s - {x});
    assert forall y :: y in [x] + rest <==> y == x || y in rest;
    assert forall i :: 0 <= i < |rest| ==> rest[i] in rest;
    [x] + rest
  }

  // ---------------------------------------------------------------------
  // Strings, byte by byte
  // ---------------------------------------------------------------------

  predicate Before(a: string, b: string) {
    if b == [] then false
    else if a == [] then true
    else a[0] < b[0] || (a[0] == b[0] && Before(a[1..], b[1..]))
  }

  lemma {:induction false} BeforeConnects(a: string, b: string)
    requires a != b
    ensures Before(a, b) || Before(b, a)
  {
    if a != [] && b != [] && a[0] == b[0] {
      assert a == [a[0]] + a[1..] && b == [b[0]] + b[1..];
      BeforeConnects(a[1..], b[1..]);
    }
  }

  lemma {:induction false} BeforeTransitive(a: string, b: string, c: string)
    requires Before(a, b) && Before(b, c)
    ensures Before(a, c)
  {
    if a != [] && a[0] == b[0] == c[0] {
      BeforeTransitive(a[1..], b[1..], c[1..]);
    }
  }

  lemma {:induction false} BeforeIrreflexive(a: string)
    ensures !Before(a, a)
  {
    if a != [] {
      BeforeIrreflexive(a[1..]);
    }
  }

  lemma BeforeIsTotal()
    ensures TotalOrder(Before)
  {
    forall x: string ensures !Before(x, x) { BeforeIrreflexive(x); }
    forall x: string, y: string | x != y ensures Before(x, y) || Before(y, x) { BeforeConnects(x, y); }
    forall x: string, y: string, z: string | Before(x, y) && Before(y, z) ensures Before(x, z) {
      BeforeTransitive(x, y, z);
    }
  }

  /** By time, then by id. */
  predicate Earlier(a: (int, string), b: (int, string)) {
    a.0 < b.0 || (a.0 == b.0 && Before(a.1, b.1))
  }

  lemma EarlierIsTotal()
    ensures TotalOrder(Earlier)
  {
    BeforeIsTotal();
  }
}
