/** A company's scan targets, and folding the same target listed in several groups into one row. */
module Targets {
  import opened Lists

  datatype Mode = Active | PassiveOnly | Exclude

  /** Text without NUL, as the database stores it. */
  type PlainText = s: string | '\0' !in s

  /** `authorizedBy` and `authorizedAt` say whether the authorization record names who gave it and when. */
  datatype ScopeTarget = ScopeTarget(id: nat, kind: PlainText, value: string, mode: Mode, authorizedBy: bool,
                                     authorizedAt: bool)
  {
    predicate Authorized() { mode.Active? && authorizedBy && authorizedAt }

    predicate Excluded() { mode.Exclude? }

    /** The key under which rows are folded. */
    function Key(): string { kind + "\0" + value }
  }

  /** Kinds contain no NUL, so a key names one (kind, value). */
  lemma KeyNamesOne(a: ScopeTarget, b: ScopeTarget)
    requires a.Key() == b.Key()
    ensures a.kind == b.kind && a.value == b.value
  {
    var k := a.Key();
    assert k[|a.kind|] == '\0' && k[|b.kind|] == '\0';
    assert forall i :: 0 <= i < |a.kind| ==> k[i] == a.kind[i];
    assert forall i :: 0 <= i < |b.kind| ==> k[i] == b.kind[i];
    assert |a.kind| == |b.kind|;
    assert a.kind == k[..|a.kind|] && b.kind == k[..|b.kind|];
    assert a.value == k[|a.kind| + 1..] && b.value == k[|b.kind| + 1..];
  }

  function Keys(rows: seq<ScopeTarget>): seq<string> {
    seq(|rows|, i requires 0 <= i < |rows| => rows[i].Key())
  }

  /** Which of two rows of one key decides. */
  function Stronger(cur: ScopeTarget, t: ScopeTarget): ScopeTarget {
    if cur.Excluded() then cur
    else if t.Excluded() then t
    else if !cur.Authorized() && t.Authorized() then t
    else cur
  }

  /** The row that speaks for a key. */
  function Winner(rows: seq<ScopeTarget>, key: string): (r: ScopeTarget)
    requires key in Keys(rows)
    decreases |rows|
  {
    var n := |rows| - 1;
    KeysPrefix(rows);
    if rows[n].Key() != key then Winner(rows[..n], key)
    else if key in Keys(rows[..n]) then Stronger(Winner(rows[..n], key), rows[n])
    else rows[n]
  }

  lemma KeysPrefix(rows: seq<ScopeTarget>)
    requires rows != []
    ensures Keys(rows) == Keys(rows[..|rows| - 1]) + [rows[|rows| - 1].Key()]
  {
  }

  /** One row per key in the order the keys first appear, each the one that decides. */
  function Merged(rows: seq<ScopeTarget>): seq<ScopeTarget> {
    var keys := Distinct(Keys(rows));
    DistinctElements(Keys(rows));
    seq(|keys|, i requires 0 <= i < |keys| => Winner(rows, keys[i]))
  }

  predicate AnyExcluded(rows: seq<ScopeTarget>, key: string) {
    exists i :: 0 <= i < |rows| && rows[i].Key() == key && rows[i].Excluded()
  }

  predicate AnyAuthorized(rows: seq<ScopeTarget>, key: string) {
    exists i :: 0 <= i < |rows| && rows[i].Key() == key && rows[i].Authorized()
  }

  /** Excluded anywhere means excluded; otherwise authorized anywhere means authorized. */
  lemma {:induction false} WinnerDecides(rows: seq<ScopeTarget>, key: string)
    requires key in Keys(rows)
    ensures
      var w := Winner(rows, key);
      && w in rows && w.Key() == key
      && (w.Excluded() <==> AnyExcluded(rows, key))
      && (w.Authorized() <==> !AnyExcluded(rows, key) && AnyAuthorized(rows, key))
    decreases |rows|
  {
    var n := |rows| - 1;
    var p := rows[..n];
    KeysPrefix(rows);
    AnyLast(rows, key);
    if key in Keys(p) {
      WinnerDecides(p, key);
      assert Winner(p, key) in rows;
    } else {
      forall i | 0 <= i < n ensures p[i].Key() != key { assert Keys(p)[i] == p[i].Key(); }
    }
    assert rows[n] in rows;
  }

  lemma AnyLast(rows: seq<ScopeTarget>, key: string)
    requires rows != []
    ensures
      var n := |rows| - 1;
      && (AnyExcluded(rows, key) <==> AnyExcluded(rows[..n], key) || (rows[n].Key() == key && rows[n].Excluded()))
      && (AnyAuthorized(rows, key) <==> AnyAuthorized(rows[..n], key) || (rows[n].Key() == key && rows[n].Authorized()))
  {
    var n := |rows| - 1;
    var p := rows[..n];
    assert forall i :: 0 <= i < n ==> p[i] == rows[i];
    if AnyExcluded(rows, key) {
      var i :| 0 <= i < |rows| && rows[i].Key() == key && rows[i].Excluded();
      assert i < n ==> p[i].Excluded();
    }
    if AnyAuthorized(rows, key) {
      var i :| 0 <= i < |rows| && rows[i].Key() == key && rows[i].Authorized();
      assert i < n ==> p[i].Authorized();
    }
    if AnyExcluded(p, key) {
      var i :| 0 <= i < |p| && p[i].Key() == key && p[i].Excluded();
      assert rows[i].Excluded();
    }
    if AnyAuthorized(p, key) {
      var i :| 0 <= i < |p| && p[i].Key() == key && p[i].Authorized();
      assert rows[i].Authorized();
    }
  }

  /** Merged rows: their keys are the keys of the input, once each and in order of first appearance. */
  lemma MergedKeys(rows: seq<ScopeTarget>)
    ensures Keys(Merged(rows)) == Distinct(Keys(rows))
    ensures forall i, j :: 0 <= i < j < |Merged(rows)| ==> Merged(rows)[i].Key() != Merged(rows)[j].Key()
  {
    var keys := Distinct(Keys(rows));
    DistinctElements(Keys(rows));
    DistinctIsFirstSeen(Keys(rows));
    forall i | 0 <= i < |keys| ensures Merged(rows)[i].Key() == keys[i] {
      assert keys[i] in keys;
      WinnerDecides(rows, keys[i]);
    }
  }

  lemma MergedDecides(rows: seq<ScopeTarget>, t: ScopeTarget)
    requires t in Merged(rows)
    ensures t in rows
    ensures t.Excluded() <==> AnyExcluded(rows, t.Key())
    ensures t.Authorized() <==> !AnyExcluded(rows, t.Key()) && AnyAuthorized(rows, t.Key())
  {
    var keys := Distinct(Keys(rows));
    DistinctElements(Keys(rows));
    var i :| 0 <= i < |keys| && Merged(rows)[i] == t;
    assert keys[i] in keys;
    WinnerDecides(rows, keys[i]);
  }

  /** No row's target is lost. */
  lemma MergedCovers(rows: seq<ScopeTarget>, t: ScopeTarget)
    requires t in rows
    ensures exists m :: m in Merged(rows) && m.Key() == t.Key()
  {
    var i :| 0 <= i < |rows| && rows[i] == t;
    assert Keys(rows)[i] == t.Key();
    DistinctElements(Keys(rows));
    assert t.Key() in Keys(rows) && t.Key() in Distinct(Keys(rows));
    var j :| 0 <= j < |Distinct(Keys(rows))| && Distinct(Keys(rows))[j] == t.Key();
    WinnerDecides(rows, t.Key());
    assert Merged(rows)[j] in Merged(rows);
  }

  predicate Rank(t: ScopeTarget, excluded: bool, authorized: bool) {
    if excluded then t.mode == Exclude
    else authorized ==> t.mode == Active && t.authorizedBy && t.authorizedAt
  }

  /** t is the first row of the key of that rank. */
  predicate FirstOf(rows: seq<ScopeTarget>, key: string, t: ScopeTarget, excluded: bool, authorized: bool) {
    exists i :: 0 <= i < |rows| && rows[i] == t && t.Key() == key && Rank(t, excluded, authorized)
                && forall j :: 0 <= j < i && rows[j].Key() == key ==> !Rank(rows[j], excluded, authorized)
  }

  lemma FirstStays(rows: seq<ScopeTarget>, key: string, t: ScopeTarget, excluded: bool, authorized: bool)
    requires rows != [] && FirstOf(rows[..|rows| - 1], key, t, excluded, authorized)
    ensures FirstOf(rows, key, t, excluded, authorized)
  {
    var p := rows[..|rows| - 1];
    var i :| 0 <= i < |p| && p[i] == t && t.Key() == key && Rank(t, excluded, authorized)
             && forall j :: 0 <= j < i && p[j].Key() == key ==> !Rank(p[j], excluded, authorized);
    assert rows[i] == t && forall j :: 0 <= j < i ==> p[j] == rows[j];
  }

  /** The row that speaks for a key is the first that excludes it; if there is none, the first that authorizes
      it; and otherwise the first. */
  lemma {:induction false} WinnerIsFirst(rows: seq<ScopeTarget>, key: string)
    requires key in Keys(rows)
    ensures FirstOf(rows, key, Winner(rows, key), AnyExcluded(rows, key), AnyAuthorized(rows, key))
    decreases |rows|
  {
    var n := |rows| - 1;
    var p, last := rows[..n], rows[n];
    KeysPrefix(rows);
    AnyLast(rows, key);
    var e, a := AnyExcluded(rows, key), AnyAuthorized(rows, key);
    assert forall j :: 0 <= j < n ==> p[j] == rows[j];
    if key in Keys(p) {
      WinnerIsFirst(p, key);
      WinnerDecides(p, key);
      if Winner(rows, key) == Winner(p, key) && e == AnyExcluded(p, key) && (e || a == AnyAuthorized(p, key)) {
        assert FirstOf(p, key, Winner(p, key), e, a) by { SameRank(p, key, Winner(p, key), e, AnyAuthorized(p, key), a); }
        FirstStays(rows, key, Winner(p, key), e, a);
      } else {
        assert last.Key() == key;
        NewRank(rows, key, e, a);
      }
    } else {
      forall j | 0 <= j < n ensures rows[j].Key() != key { assert Keys(p)[j] == p[j].Key(); }
      assert rows[n] == last;
    }
  }

  lemma SameRank(rows: seq<ScopeTarget>, key: string, t: ScopeTarget, e: bool, a: bool, b: bool)
    requires FirstOf(rows, key, t, e, a) && (e || a == b)
    ensures FirstOf(rows, key, t, e, b)
  {
    assert forall u :: Rank(u, e, a) == Rank(u, e, b);
  }

  /** The last row is the first of its key to exclude it, or to authorize it. */
  lemma NewRank(rows: seq<ScopeTarget>, key: string, e: bool, a: bool)
    requires rows != [] && rows[|rows| - 1].Key() == key && e == AnyExcluded(rows, key) && a == AnyAuthorized(rows, key)
    requires (e && !AnyExcluded(rows[..|rows| - 1], key)) || (!e && a && !AnyAuthorized(rows[..|rows| - 1], key))
    ensures FirstOf(rows, key, rows[|rows| - 1], e, a)
  {
    var n := |rows| - 1;
    AnyLast(rows, key);
    forall j | 0 <= j < n && rows[j].Key() == key ensures !Rank(rows[j], e, a) { assert rows[..n][j] == rows[j]; }
    assert rows[n] == rows[|rows| - 1];
  }

  lemma AnyFromSubset(a: seq<ScopeTarget>, b: seq<ScopeTarget>, key: string)
    requires forall t :: t in a ==> t in b
    ensures AnyExcluded(a, key) ==> AnyExcluded(b, key)
    ensures AnyAuthorized(a, key) ==> AnyAuthorized(b, key)
  {
    if AnyExcluded(a, key) {
      var i :| 0 <= i < |a| && a[i].Key() == key && a[i].Excluded();
      assert a[i] in b;
    }
    if AnyAuthorized(a, key) {
      var i :| 0 <= i < |a| && a[i].Key() == key && a[i].Authorized();
      assert a[i] in b;
    }
  }

  /** What may be scanned does not depend on the order the rows come in, nor on repetitions. */
  lemma OrderDoesNotDecide(a: seq<ScopeTarget>, b: seq<ScopeTarget>, t: ScopeTarget, u: ScopeTarget)
    requires forall x :: x in a ==> x in b
    requires forall x :: x in b ==> x in a
    requires t in Merged(a) && u in Merged(b) && t.Key() == u.Key()
    ensures t.Excluded() == u.Excluded() && t.Authorized() == u.Authorized()
  {
    MergedDecides(a, t);
    MergedDecides(b, u);
    AnyFromSubset(a, b, t.Key());
    AnyFromSubset(b, a, t.Key());
  }

  lemma {:induction false} WinnerOfUnique(rows: seq<ScopeTarget>, i: nat)
    requires i < |rows|
    requires forall k, j :: 0 <= k < j < |rows| ==> rows[k].Key() != rows[j].Key()
    ensures Keys(rows)[i] == rows[i].Key() && Winner(rows, rows[i].Key()) == rows[i]
    decreases |rows|
  {
    var n := |rows| - 1;
    assert Keys(rows)[i] == rows[i].Key();
    KeysPrefix(rows);
    if i < n {
      WinnerOfUnique(rows[..n], i);
    } else {
      forall k | 0 <= k < n ensures Keys(rows[..n])[k] != rows[n].Key() {}
    }
  }

  lemma {:induction false} DistinctOfUnique<T>(s: seq<T>)
    requires forall i, j :: 0 <= i < j < |s| ==> s[i] != s[j]
    ensures Distinct(s) == s
  {
    if s != [] {
      var n := |s| - 1;
      DistinctOfUnique(s[..n]);
      assert s == s[..n] + [s[n]];
    }
  }

  /** Folding twice is folding once. */
  lemma MergeIdempotent(rows: seq<ScopeTarget>)
    ensures Merged(Merged(rows)) == Merged(rows)
  {
    var m := Merged(rows);
    MergedKeys(rows);
    DistinctOfUnique(Keys(m));
    forall i | 0 <= i < |m| ensures Merged(m)[i] == m[i] {
      WinnerOfUnique(m, i);
    }
  }

  /** The fold, overwriting rows in place through an index by key. */
  method MergeTargets(rows: seq<ScopeTarget>) returns (out: seq<ScopeTarget>)
    ensures out == Merged(rows)
  {
    var index: map<string, nat> := map[];
    out := [];
    for k := 0 to |rows|
      invariant out == Merged(rows[..k])
      invariant IndexOk(index, Distinct(Keys(rows[..k])))
    {
      var t := rows[k];
      MergedNext(rows[..k + 1]);
      assert rows[..k + 1][..k] == rows[..k];
      IndexFinds(index, Distinct(Keys(rows[..k])), t.Key());
      if t.Key() !in index {
        index := index[t.Key() := |out|];
        out := out + [t];
      } else {
        var i := index[t.Key()];
        var cur := out[i];
        if cur.mode.Exclude? {
        } else if t.mode.Exclude? {
          out := out[i := t];
        } else if !cur.Authorized() && t.Authorized() {
          out := out[i := t];
        }
      }
    }
    assert rows[..|rows|] == rows;
  }

  /** The index sends each key to its place, and nothing else. */
  predicate IndexOk(index: map<string, nat>, keys: seq<string>) {
    && (forall k :: k in index ==> index[k] < |keys| && keys[index[k]] == k)
    && (forall i :: 0 <= i < |keys| ==> keys[i] in index && index[keys[i]] == i)
  }

  lemma IndexFinds(index: map<string, nat>, keys: seq<string>, key: string)
    requires IndexOk(index, keys)
    ensures key in index <==> key in keys
  {
  }

  lemma KeysNext(rows: seq<ScopeTarget>)
    requires rows != []
    ensures
      var n := |rows| - 1;
      var keys := Distinct(Keys(rows[..n]));
      && Distinct(Keys(rows)) == (if rows[n].Key() in keys then keys else keys + [rows[n].Key()])
      && forall i, j :: 0 <= i < j < |keys| ==> keys[i] != keys[j]
  {
    var n := |rows| - 1;
    KeysPrefix(rows);
    assert Keys(rows)[..n] == Keys(rows[..n]);
    DistinctIsFirstSeen(Keys(rows[..n]));
  }

  lemma MergedAt(rows: seq<ScopeTarget>, i: nat)
    requires i < |Distinct(Keys(rows))|
    ensures |Merged(rows)| == |Distinct(Keys(rows))|
    ensures Distinct(Keys(rows))[i] in Keys(rows)
    ensures Merged(rows)[i] == Winner(rows, Distinct(Keys(rows))[i])
  {
    DistinctElements(Keys(rows));
    assert Distinct(Keys(rows))[i] in Distinct(Keys(rows));
  }

  lemma WinnerNext(rows: seq<ScopeTarget>, key: string)
    requires rows != [] && key in Keys(rows[..|rows| - 1])
    ensures
      var n := |rows| - 1;
      && key in Keys(rows)
      && Winner(rows, key) ==
           (if rows[n].Key() == key then Stronger(Winner(rows[..n], key), rows[n]) else Winner(rows[..n], key))
  {
    KeysPrefix(rows);
  }

  /** What one more row does to the result. */
  lemma MergedNext(rows: seq<ScopeTarget>)
    requires rows != []
    ensures
      var n := |rows| - 1;
      var (t, m, keys) := (rows[n], Merged(rows[..n]), Distinct(Keys(rows[..n])));
      && |m| == |keys|
      && Distinct(Keys(rows)) == (if t.Key() in keys then keys else keys + [t.Key()])
      && (t.Key() !in keys ==> Merged(rows) == m + [t])
      && (forall i :: 0 <= i < |keys| && keys[i] == t.Key() ==> Merged(rows) == m[i := Stronger(m[i], t)])
  {
    var n := |rows| - 1;
    var t, m, keys := rows[n], Merged(rows[..n]), Distinct(Keys(rows[..n]));
    KeysNext(rows);
    forall i | 0 <= i < |keys| ensures Merged(rows)[i] == if keys[i] == t.Key() then Stronger(m[i], t) else m[i] {
      MergedAt(rows, i);
      MergedAt(rows[..n], i);
      WinnerNext(rows, keys[i]);
    }
    if t.Key() !in keys {
      MergedAt(rows, |keys|);
      NewKeyWins(rows);
      assert Merged(rows) == m + [t];
    }
  }

  lemma NewKeyWins(rows: seq<ScopeTarget>)
    requires rows != [] && rows[|rows| - 1].Key() !in Distinct(Keys(rows[..|rows| - 1]))
    ensures rows[|rows| - 1].Key() in Keys(rows) && Winner(rows, rows[|rows| - 1].Key()) == rows[|rows| - 1]
  {
    var n := |rows| - 1;
    DistinctElements(Keys(rows[..n]));
    KeysPrefix(rows);
    assert Keys(rows)[n] == rows[n].Key();
  }
}
