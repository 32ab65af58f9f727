/**
 * Filtering and de-duplication of lists, in the order a loop builds them.
 *
 * `RefilterIsStable` is the heart of the policy compiler: a list that was built
 * from derived entries followed by the kept entries of an older list, without
 * duplicates, is rebuilt unchanged from itself.
 */
module Lists {
  import opened Common

  /** The elements of `s` that satisfy `keep`, in order. */
  function Filter<T(!new)>(s: seq<T>, keep: T -> bool): (r: seq<T>)
    ensures forall x :: x in r <==> x in s && keep(x)
    ensures |r| <= |s|
  {
    if s == [] then [] else
    var n := |s| - 1;
    var r := Filter(s[..n], keep);
    assert forall x :: x in s <==> x in s[..n] || x == s[n];
    if keep(s[n]) then r + [s[n]] else r
  }

  /** The first occurrences in `s`, in order. */
  function Dedup<T(==, !new)>(s: seq<T>): (r: seq<T>)
    ensures Distinct(r)
    ensures forall x :: x in r <==> x in s
    ensures |r| <= |s|
  {
    if s == [] then [] else
    var n := |s| - 1;
    var r := Dedup(s[..n]);
    assert forall x :: x in s <==> x in s[..n] || x == s[n];
    if s[n] in s[..n] then r else r + [s[n]]
  }

  /** The elements of `s` that are not in `d`, in order. */
  function Without<T(==, !new)>(s: seq<T>, d: seq<T>): (r: seq<T>)
    ensures forall x :: x in r <==> x in s && x !in d
    ensures |r| <= |s|
  {
    if s == [] then [] else
    var n := |s| - 1;
    var r := Without(s[..n], d);
    assert forall x :: x in s <==> x in s[..n] || x == s[n];
    if s[n] in d then r else r + [s[n]]
  }

  /** Taking the last element off a concatenation takes it off its second part. */
  lemma ConcatFront<T>(a: seq<T>, b: seq<T>)
    requires b != []
    ensures (a + b)[..|a + b| - 1] == a + b[..|b| - 1]
    ensures (a + b)[|a + b| - 1] == b[|b| - 1]
  {
  }

  lemma ConcatEmpty<T>(a: seq<T>, b: seq<T>)
    requires b == []
    ensures a + b == a
  {
  }

  lemma ConcatAssoc<T>(a: seq<T>, b: seq<T>, c: seq<T>)
    ensures a + (b + c) == a + b + c
  {
  }

  lemma {:induction false} FilterConcat<T(!new)>(a: seq<T>, b: seq<T>, keep: T -> bool)
    ensures Filter(a + b, keep) == Filter(a, keep) + Filter(b, keep)
    decreases |b|
  {
    if b == [] {
      ConcatEmpty(a, b);
      ConcatEmpty(Filter(a, keep), Filter(b, keep));
    } else {
      var m := |b| - 1;
      ConcatFront(a, b);
      FilterConcat(a, b[..m], keep);
      ConcatAssoc(Filter(a, keep), Filter(b[..m], keep), [b[m]]);
    }
  }

  /** A filter that rejects everything leaves nothing. */
  lemma {:induction false} FilterNone<T(!new)>(s: seq<T>, keep: T -> bool)
    requires forall x :: x in s ==> !keep(x)
    ensures Filter(s, keep) == []
  {
    if s != [] {
      var n := |s| - 1;
      assert forall x :: x in s[..n] ==> x in s;
      FilterNone(s[..n], keep);
    }
  }

  /** A filter that rejects nothing is the identity. */
  lemma {:induction false} FilterAll<T(!new)>(s: seq<T>, keep: T -> bool)
    requires forall x :: x in s ==> keep(x)
    ensures Filter(s, keep) == s
  {
    if s != [] {
      var n := |s| - 1;
      forall x | x in s[..n] ensures keep(x) {
        assert x in s;
      }
      FilterAll(s[..n], keep);
      assert keep(s[n]) by {
        assert s[n] in s;
      }
      assert s == s[..n] + [s[n]];
    }
  }

  lemma {:induction false} FilterSame<T(!new)>(s: seq<T>, keep: T -> bool, other: T -> bool)
    requires forall x :: keep(x) == other(x)
    ensures Filter(s, keep) == Filter(s, other)
  {
    if s != [] {
      FilterSame(s[..|s| - 1], keep, other);
    }
  }

  lemma {:induction false} FilterDistinct<T(!new)>(s: seq<T>, keep: T -> bool)
    requires Distinct(s)
    ensures Distinct(Filter(s, keep))
  {
    if s != [] {
      var n := |s| - 1;
      FilterDistinct(s[..n], keep);
      assert s[n] !in s[..n];
    }
  }

  /** A list without duplicates is its own de-duplication. */
  lemma {:induction false} DedupDistinct<T(!new)>(s: seq<T>)
    requires Distinct(s)
    ensures Dedup(s) == s
  {
    if s != [] {
      var n := |s| - 1;
      DedupDistinct(s[..n]);
      assert s[n] !in s[..n];
      assert s == s[..n] + [s[n]];
    }
  }

  lemma {:induction false} WithoutConcat<T(!new)>(a: seq<T>, b: seq<T>, d: seq<T>)
    ensures Without(a + b, d) == Without(a, d) + Without(b, d)
    decreases |b|
  {
    if b == [] {
      ConcatEmpty(a, b);
      ConcatEmpty(Without(a, d), Without(b, d));
    } else {
      var m := |b| - 1;
      ConcatFront(a, b);
      WithoutConcat(a, b[..m], d);
      ConcatAssoc(Without(a, d), Without(b[..m], d), [b[m]]);
    }
  }

  /** Nothing is left of a list whose elements are all excluded. */
  lemma {:induction false} WithoutAll<T(!new)>(s: seq<T>, d: seq<T>)
    requires forall x :: x in s ==> x in d
    ensures Without(s, d) == []
  {
    if s != [] {
      var n := |s| - 1;
      assert forall x :: x in s[..n] ==> x in s;
      WithoutAll(s[..n], d);
    }
  }

  lemma {:induction false} WithoutNone<T(!new)>(s: seq<T>, d: seq<T>)
    requires forall x :: x in s ==> x !in d
    ensures Without(s, d) == s
  {
    if s != [] {
      var n := |s| - 1;
      assert forall x :: x in s[..n] ==> x in s;
      WithoutNone(s[..n], d);
      assert s == s[..n] + [s[n]];
    }
  }

  /** De-duplicating a concatenation keeps the first part and what is new in the second. */
  lemma {:induction false} DedupConcat<T(!new)>(a: seq<T>, b: seq<T>)
    ensures Dedup(a + b) == Dedup(a) + Without(Dedup(b), a)
    decreases |b|
  {
    if b == [] {
      ConcatEmpty(a, b);
      ConcatEmpty(Dedup(a), Without(Dedup(b), a));
    } else {
      var m := |b| - 1;
      var front, last := b[..m], b[m];
      ConcatFront(a, b);
      DedupConcat(a, front);
      assert last in a + front <==> last in a || last in front;
      WithoutAppend(Dedup(front), last, a);
      ConcatAssoc(Dedup(a), Without(Dedup(front), a), [last]);
    }
  }

  lemma WithoutAppend<T(!new)>(s: seq<T>, x: T, d: seq<T>)
    ensures Without(s + [x], d) == if x in d then Without(s, d) else Without(s, d) + [x]
  {
    assert (s + [x])[..|s|] == s;
  }

  /** Rebuilding a list from itself changes nothing. */
  lemma RefilterIsStable<T(!new)>(derived: seq<T>, earlier: seq<T>, keep: T -> bool)
    ensures var built := Dedup(derived + Filter(earlier, keep));
            Dedup(derived + Filter(built, keep)) == built
  {
    var kept := Filter(earlier, keep);
    var built := Dedup(derived + kept);
    var added := Without(Dedup(kept), derived);
    DedupConcat(derived, kept);
    FilterConcat(Dedup(derived), added, keep);
    FilterAll(added, keep);
    var again := Filter(built, keep);
    FilterDistinct(built, keep);
    DedupDistinct(again);
    DedupConcat(derived, again);
    WithoutConcat(Filter(Dedup(derived), keep), added, derived);
    WithoutAll(Filter(Dedup(derived), keep), derived);
    WithoutNone(added, derived);
    assert [] + added == added;
  }

  /** The lists `f` gives for the elements of `s`, joined in order. */
  function FlatMap<T, U>(s: seq<T>, f: T -> seq<U>): seq<U> {
    if s == [] then [] else
    var n := |s| - 1;
    FlatMap(s[..n], f) + f(s[n])
  }

  lemma {:induction false} FlatMapConcat<T, U>(a: seq<T>, b: seq<T>, f: T -> seq<U>)
    ensures FlatMap(a + b, f) == FlatMap(a, f) + FlatMap(b, f)
    decreases |b|
  {
    if b == [] {
      ConcatEmpty(a, b);
      ConcatEmpty(FlatMap(a, f), FlatMap(b, f));
    } else {
      var m := |b| - 1;
      ConcatFront(a, b);
      FlatMapConcat(a, b[..m], f);
      ConcatAssoc(FlatMap(a, f), FlatMap(b[..m], f), f(b[m]));
    }
  }

  lemma {:induction false} InFlatMap<T(!new), U>(s: seq<T>, f: T -> seq<U>, y: U)
    ensures y in FlatMap(s, f) <==> exists x :: x in s && y in f(x)
  {
    if s != [] {
      var n := |s| - 1;
      InFlatMap(s[..n], f, y);
      assert forall x :: x in s <==> x in s[..n] || x == s[n];
    }
  }
}
