/** Whom a company has authorized: what the planner's map of authorized run targets says, told from the
    company's rows. */
module PlannerAuth {
  import opened Lists
  import opened Targets
  import opened Planner

  // ---- the row that decides for a value ----

  predicate LastOf(rows: seq<ScopeTarget>, j: int) {
    0 <= j < |rows| && forall k :: j < k < |rows| ==> rows[k].value != rows[j].value
  }

  /** For a value the map holds what its last row says. */
  lemma {:induction false} LastRowSays(rows: seq<ScopeTarget>, j: nat)
    requires LastOf(rows, j)
    ensures rows[j].value in AuthByValue(rows) && AuthByValue(rows)[rows[j].value] == rows[j].Authorized()
    decreases |rows|
  {
    var n := |rows| - 1;
    if j < n {
      assert rows[n].value != rows[j].value;
      LastRowSays(rows[..n], j);
    }
  }

  lemma {:induction false} ValuesListed(rows: seq<ScopeTarget>, value: string)
    ensures value in AuthByValue(rows) <==> exists j :: 0 <= j < |rows| && rows[j].value == value
    decreases |rows|
  {
    if rows != [] {
      var n := |rows| - 1;
      ValuesListed(rows[..n], value);
      assert forall j :: 0 <= j < n ==> rows[..n][j] == rows[j];
    }
  }

  lemma {:induction false} HasLast(rows: seq<ScopeTarget>, value: string) returns (j: nat)
    requires exists i :: 0 <= i < |rows| && rows[i].value == value
    ensures LastOf(rows, j) && rows[j].value == value
    decreases |rows|
  {
    var n := |rows| - 1;
    if rows[n].value == value {
      j := n;
    } else {
      var i :| 0 <= i < |rows| && rows[i].value == value;
      assert rows[..n][i].value == value;
      j := HasLast(rows[..n], value);
      assert forall k :: 0 <= k < n ==> rows[..n][k] == rows[k];
    }
  }

  predicate KeyUpTo(rows: seq<ScopeTarget>, i: nat, key: string) {
    exists k :: 0 <= k <= i && k < |rows| && rows[k].Key() == key
  }

  /** Row i is the first of its kind for its value, and no further kind of that value comes after it: where a
      value is listed under several kinds, the one listed last for the first time decides. */
  predicate Decides(rows: seq<ScopeTarget>, i: nat) {
    && i < |rows| && (forall k :: 0 <= k < i ==> rows[k].Key() != rows[i].Key())
    && forall j :: i < j < |rows| && rows[j].value == rows[i].value ==> KeyUpTo(rows, i, rows[j].Key())
  }

  lemma SameKeySameValue(a: ScopeTarget, b: ScopeTarget)
    requires a.Key() == b.Key()
    ensures a.value == b.value
  {
    KeyNamesOne(a, b);
  }

  lemma {:induction false} FirstWith(rows: seq<ScopeTarget>, key: string) returns (i: nat)
    requires key in Keys(rows)
    ensures i < |rows| && rows[i].Key() == key && forall k :: 0 <= k < i ==> rows[k].Key() != key
    decreases |rows|
  {
    var n := |rows| - 1;
    KeysPrefix(rows);
    if key in Keys(rows[..n]) {
      i := FirstWith(rows[..n], key);
      assert forall k :: 0 <= k < n ==> rows[..n][k] == rows[k];
    } else {
      i := n;
      forall k | 0 <= k < n ensures rows[k].Key() != key { assert Keys(rows[..n])[k] == rows[k].Key(); }
    }
  }

  /** Keys appear in the merged list in the order they first appear among the rows. */
  lemma EarlierKey(rows: seq<ScopeTarget>, p: nat, j: nat, i: nat) returns (k: nat)
    requires p < j < |Distinct(Keys(rows))| && i < |rows| && rows[i].Key() == Distinct(Keys(rows))[j]
    ensures k < i && rows[k].Key() == Distinct(Keys(rows))[p]
  {
    DistinctIsFirstSeen(Keys(rows));
    assert Keys(rows)[i] == rows[i].Key();
    k :| 0 <= k < i && Keys(rows)[k] == Distinct(Keys(rows))[p];
  }

  lemma PlaceOf(rows: seq<ScopeTarget>, i: nat) returns (p: nat)
    requires i < |rows|
    ensures p < |Distinct(Keys(rows))| == |Merged(rows)| && Distinct(Keys(rows))[p] == rows[i].Key()
    ensures Merged(rows)[p].Key() == rows[i].Key() && Merged(rows)[p].value == rows[i].value
  {
    DistinctElements(Keys(rows));
    assert Keys(rows)[i] == rows[i].Key() && rows[i].Key() in Keys(rows);
    p :| 0 <= p < |Distinct(Keys(rows))| && Distinct(Keys(rows))[p] == rows[i].Key();
    MergedKeys(rows);
    assert Keys(Merged(rows))[p] == Merged(rows)[p].Key();
    SameKeySameValue(Merged(rows)[p], rows[i]);
  }

  lemma KeyAt(rows: seq<ScopeTarget>, j: nat)
    requires j < |Merged(rows)|
    ensures j < |Distinct(Keys(rows))| && Merged(rows)[j].Key() == Distinct(Keys(rows))[j]
    ensures Merged(rows)[j].Key() in Keys(rows)
  {
    MergedKeys(rows);
    DistinctElements(Keys(rows));
    assert Keys(Merged(rows))[j] == Merged(rows)[j].Key();
    assert Distinct(Keys(rows))[j] in Distinct(Keys(rows));
  }

  /** The last merged row of a value is of the key of the row that decides. */
  lemma DecidingRow(rows: seq<ScopeTarget>, j: nat) returns (i: nat)
    requires LastOf(Merged(rows), j)
    ensures Decides(rows, i) && rows[i].Key() == Merged(rows)[j].Key() && rows[i].value == Merged(rows)[j].value
  {
    var m := Merged(rows);
    KeyAt(rows, j);
    i := FirstWith(rows, m[j].Key());
    SameKeySameValue(rows[i], m[j]);
    forall l | i < l < |rows| && rows[l].value == rows[i].value ensures KeyUpTo(rows, i, rows[l].Key()) {
      var p := PlaceOf(rows, l);
      assert p <= j;
      if p < j {
        var k := EarlierKey(rows, p, j, i);
        assert rows[k].Key() == rows[l].Key();
      } else {
        assert rows[i].Key() == rows[l].Key();
      }
    }
  }

  lemma OneDecides(rows: seq<ScopeTarget>, i: nat, l: nat)
    requires Decides(rows, i) && Decides(rows, l) && rows[i].value == rows[l].value
    ensures i == l
  {
  }

  /** The value has a row that authorizes it, of the kind that decides, and none of that kind excludes it. */
  predicate AuthorizedRow(rows: seq<ScopeTarget>, i: nat) {
    Decides(rows, i) && AnyAuthorized(rows, rows[i].Key()) && !AnyExcluded(rows, rows[i].Key())
  }

  predicate ValueAuthorized(rows: seq<ScopeTarget>, value: string) {
    exists i :: 0 <= i < |rows| && rows[i].value == value && AuthorizedRow(rows, i)
  }

  lemma ValueAuthorizedExactly(rows: seq<ScopeTarget>, value: string)
    ensures value in AuthByValue(Merged(rows)) && AuthByValue(Merged(rows))[value] <==> ValueAuthorized(rows, value)
  {
    var m := Merged(rows);
    ValuesListed(m, value);
    if value in AuthByValue(m) {
      var j := HasLast(m, value);
      LastRowSays(m, j);
      var i := DecidingRow(rows, j);
      MergedDecides(rows, m[j]);
      assert m[j].Authorized() <==> AuthorizedRow(rows, i);
      forall l | 0 <= l < |rows| && rows[l].value == value && AuthorizedRow(rows, l) ensures l == i { OneDecides(rows, i, l); }
    } else if i :| 0 <= i < |rows| && rows[i].value == value {
      var p := PlaceOf(rows, i);
    }
  }

  // ---- run targets ----

  /** The run target with id o; ids are unique, and otherwise the last one counts. */
  predicate Designates(rts: seq<RunTarget>, k: int, o: Origin) {
    0 <= k < |rts| && rts[k].id == o && forall l :: k < l < |rts| ==> rts[l].id != o
  }

  lemma {:induction false} PermitsExactly(rts: seq<RunTarget>, byValue: map<string, bool>, o: Origin)
    ensures Permits(AuthorizedRunTargets(rts, byValue), o) <==>
            exists k :: Designates(rts, k, o) && rts[k].value in byValue && byValue[rts[k].value]
    decreases |rts|
  {
    if rts != [] {
      var n := |rts| - 1;
      PermitsExactly(rts[..n], byValue, o);
      if rts[n].id == o {
        assert Designates(rts, n, o);
        forall k | Designates(rts, k, o) ensures k == n {
        }
      } else {
        forall k ensures Designates(rts, k, o) <==> Designates(rts[..n], k, o) {
          assert 0 <= k < n ==> rts[..n][k] == rts[k];
          if Designates(rts[..n], k, o) {
            forall l | k < l < |rts| ensures rts[l].id != o { if l < n { assert rts[..n][l].id != o; } }
          }
          if Designates(rts, k, o) {
            forall l | k < l < n ensures rts[..n][l].id != o { assert rts[l].id != o; }
          }
        }
      }
    }
  }

  /** The company has authorized the run target's value and does not exclude it. */
  ghost predicate Sanctioned(env: Env, o: Origin) {
    exists k :: Designates(env.runTargets, k, o) && ValueAuthorized(env.scope, env.runTargets[k].value)
  }

  /** The planner permits exactly the run targets the company has sanctioned. */
  lemma PermittedExactlySanctioned(env: Env, o: Origin)
    ensures Permits(Auth(env), o) <==> Sanctioned(env, o)
  {
    PermitsExactly(env.runTargets, AuthByValue(Merged(env.scope)), o);
    forall k | Designates(env.runTargets, k, o)
      ensures
        var value, byValue := env.runTargets[k].value, AuthByValue(Merged(env.scope));
        value in byValue && byValue[value] <==> ValueAuthorized(env.scope, value)
    {
      ValueAuthorizedExactly(env.scope, env.runTargets[k].value);
    }
  }

  predicate OneKind(rows: seq<ScopeTarget>, value: string) {
    forall i, j :: 0 <= i < |rows| && 0 <= j < |rows| && rows[i].value == value && rows[j].value == value ==>
      rows[i].kind == rows[j].kind
  }

  /** For a value listed under one kind: some row authorizes it and none excludes it. */
  lemma OneKindAuthorizedExactly(rows: seq<ScopeTarget>, value: string)
    requires OneKind(rows, value)
    ensures ValueAuthorized(rows, value) <==>
            && (exists i :: 0 <= i < |rows| && rows[i].value == value && rows[i].mode == Active
                            && rows[i].authorizedBy && rows[i].authorizedAt)
            && !exists i :: 0 <= i < |rows| && rows[i].value == value && rows[i].mode == Exclude
  {
    if i :| 0 <= i < |rows| && rows[i].value == value {
      var key := rows[i].Key();
      forall j | 0 <= j < |rows| ensures rows[j].value == value <==> rows[j].Key() == key {
        if rows[j].Key() == key { SameKeySameValue(rows[j], rows[i]); }
      }
      assert Keys(rows)[i] == key;
      var first := FirstWith(rows, key);
      assert Decides(rows, first);
      if ValueAuthorized(rows, value) {
        var l :| 0 <= l < |rows| && rows[l].value == value && AuthorizedRow(rows, l);
        OneDecides(rows, first, l);
      }
    }
  }

  /** In any case a sanctioned run target has a row that authorizes its value and that no row excludes. */
  lemma SanctionedHasRow(env: Env, o: Origin) returns (rt: RunTarget, t: ScopeTarget)
    requires Sanctioned(env, o)
    ensures rt in env.runTargets && rt.id == o && t in env.scope && t.value == rt.value
    ensures t.mode == Active && t.authorizedBy && t.authorizedAt
    ensures !AnyExcluded(env.scope, t.Key())
  {
    var k :| Designates(env.runTargets, k, o) && ValueAuthorized(env.scope, env.runTargets[k].value);
    rt := env.runTargets[k];
    var i :| 0 <= i < |env.scope| && env.scope[i].value == rt.value && AuthorizedRow(env.scope, i);
    var j :| 0 <= j < |env.scope| && env.scope[j].Key() == env.scope[i].Key() && env.scope[j].Authorized();
    t := env.scope[j];
    SameKeySameValue(t, env.scope[i]);
  }
}
