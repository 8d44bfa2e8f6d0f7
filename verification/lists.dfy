/** Lists that keep each value once, in the order it first appeared. */
module Lists {

  /** a, followed by the values of b not seen before, in the order they first appear. */
  function Merge<T(==)>(a: seq<T>, b: seq<T>): seq<T> {
    if b == [] then a
    else
      var m := Merge(a, b[..|b| - 1]);
      if b[|b| - 1] in m then m else m + [b[|b| - 1]]
  }

  function Distinct<T(==)>(s: seq<T>): seq<T> { Merge([], s) }

  lemma Associative<T>(a: seq<T>, b: seq<T>, c: seq<T>)
    ensures (a + b) + c == a + (b + c)
  {
  }

  lemma {:induction false} MergeElements<T>(a: seq<T>, b: seq<T>)
    ensures forall x :: x in Merge(a, b) ==> x in a || x in b
    ensures forall x :: x in a || x in b ==> x in Merge(a, b)
  {
    if b != [] {
      MergeElements(a, b[..|b| - 1]);
      assert b == b[..|b| - 1] + [b[|b| - 1]];
      assert forall x :: x in b <==> x in b[..|b| - 1] || x == b[|b| - 1];
    }
  }

  lemma DistinctElements<T>(s: seq<T>)
    ensures forall x :: x in Distinct(s) ==> x in s
    ensures forall x :: x in s ==> x in Distinct(s)
  {
    var none: seq<T> := [];
    MergeElements(none, s);
    assert Merge(none, s) == Distinct(s);
  }

  lemma {:induction false} MergeInTwo<T>(a: seq<T>, b: seq<T>, c: seq<T>)
    ensures Merge(Merge(a, b), c) == Merge(a, b + c)
  {
    if c == [] {
      assert b + c == b;
    } else {
      assert (b + c)[..|b + c| - 1] == b + c[..|c| - 1];
      MergeInTwo(a, b, c[..|c| - 1]);
    }
  }

  /** Dropping repetitions first makes no difference to what is appended. */
  lemma {:induction false} MergeDistinct<T>(a: seq<T>, b: seq<T>)
    ensures Merge(a, Distinct(b)) == Merge(a, b)
  {
    if b != [] {
      var b', x := b[..|b| - 1], b[|b| - 1];
      MergeDistinct(a, b');
      MergeElements(a, b');
      MergeElements([], b');
      if x !in Distinct(b') {
        assert (Distinct(b') + [x])[..|Distinct(b')|] == Distinct(b');
      }
    }
  }

  lemma {:induction false} MergeAbsorbs<T>(a: seq<T>, b: seq<T>)
    requires forall x :: x in b ==> x in a
    ensures Merge(a, b) == a
  {
    if b != [] {
      assert b[|b| - 1] in b;
      assert forall x :: x in b[..|b| - 1] ==> x in b;
      MergeAbsorbs(a, b[..|b| - 1]);
    }
  }

  ghost predicate FirstSeen<T(!new)>(r: seq<T>, s: seq<T>) {
    && (forall i, j :: 0 <= i < j < |r| ==> r[i] != r[j])
    && (forall x :: x in r <==> x in s)
    && (forall i, j, q :: 0 <= i < j < |r| && 0 <= q < |s| && s[q] == r[j] ==>
          exists p :: 0 <= p < q && s[p] == r[i])
  }

  /** A summary lists each value once, in the order the worker first reported it. */
  lemma {:induction false} DistinctIsFirstSeen<T(!new)>(s: seq<T>)
    ensures FirstSeen(Distinct(s), s)
  {
    if s != [] {
      var n := |s| - 1;
      var r := Distinct(s[..n]);
      DistinctIsFirstSeen(s[..n]);
      MergeElements([], s);
      forall i, j, q | 0 <= i < j < |Distinct(s)| && 0 <= q < |s| && s[q] == Distinct(s)[j]
        ensures exists p :: 0 <= p < q && s[p] == Distinct(s)[i]
      {
        if q < n {
          assert s[..n][q] == s[q] && s[q] in s[..n];
          assert Distinct(s)[j] in r;
          assert j < |r|;
          var p :| 0 <= p < q && s[..n][p] == r[i];
          assert s[p] == r[i];
        } else {
          assert r[i] in r;
          var p :| 0 <= p < n && s[..n][p] == r[i];
          assert s[p] == r[i];
        }
      }
    }
  }

  lemma DistinctAbsorbs<T>(whole: seq<T>, again: seq<T>)
    requires forall x :: x in again ==> x in whole
    ensures Merge(Distinct(whole), Distinct(again)) == Distinct(whole)
  {
    DistinctElements(whole);
    DistinctElements(again);
    MergeAbsorbs(Distinct(whole), Distinct(again));
  }
}
