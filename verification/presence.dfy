/** Whether a finding is still there, derived from what each run saw, and the events that say it changed. */
module Presence {
  import opened Options

  /** One covering run's verdict: it looked, and did or did not see the finding. */
  datatype Verdict = Verdict(at: int, observed: bool)

  datatype Event = Gone(at: int) | Returned(at: int)

  predicate Active(h: seq<Verdict>) { h == [] || h[|h| - 1].observed }

  function Seen(h: seq<Verdict>): nat {
    if h == [] then 0 else Seen(h[..|h| - 1]) + if h[|h| - 1].observed then 1 else 0
  }

  /** How many of the runs saw it. */
  lemma {:induction false} SeenCounts(h: seq<Verdict>)
    ensures Seen(h) == |set i | 0 <= i < |h| && h[i].observed|
    decreases |h|
  {
    var all := set i | 0 <= i < |h| && h[i].observed;
    if h == [] {
      assert all == {};
    } else {
      var n := |h| - 1;
      SeenCounts(h[..n]);
      assert forall i :: 0 <= i < n ==> h[..n][i] == h[i];
      var before := set i | 0 <= i < |h[..n]| && h[..n][i].observed;
      assert all == if h[n].observed then before + {n} else before;
    }
  }

  /** When a finding that is gone went: the first run of the last stretch that did not see it. */
  function GoneAt(h: seq<Verdict>): int
    requires !Active(h)
  {
    var n := |h| - 1;
    if n == 0 || h[n - 1].observed then h[n].at else GoneAt(h[..n])
  }

  class Finding {
    const history: seq<Verdict>
    var coveredRuns: nat
    var seenIn: nat
    var presence: string
    var goneSince: Option<int>

    constructor (history: seq<Verdict>)
      ensures this.history == history
    {
      this.history := history;
      coveredRuns, seenIn, presence, goneSince := 0, 0, "", None;
    }

    method DerivePresence()
      modifies this
      ensures coveredRuns == |history| && seenIn == Seen(history)
      ensures presence == if Active(history) then "active" else "gone"
      ensures goneSince == if Active(history) then None else Some(GoneAt(history))
    {
      coveredRuns := |history|;
      seenIn := 0;
      goneSince := None;
      var lastSeen := -1;
      for i := 0 to |history|
        invariant coveredRuns == |history| && goneSince == None
        invariant -1 <= lastSeen < i && seenIn == Seen(history[..i])
        invariant lastSeen >= 0 ==> history[lastSeen].observed
        invariant forall j :: lastSeen < j < i ==> !history[j].observed
      {
        assert history[..i + 1][..i] == history[..i];
        if history[i].observed {
          seenIn := seenIn + 1;
          lastSeen := i;
        }
      }
      assert history[..|history|] == history;
      if coveredRuns == 0 || lastSeen == coveredRuns - 1 {
        presence := "active";
        return;
      }
      presence := "gone";
      goneSince := Some(history[lastSeen + 1].at);
      GoneAfter(history, lastSeen);
    }
  }

  lemma {:induction false} GoneAfter(h: seq<Verdict>, last: int)
    requires -1 <= last < |h| - 1 && (last >= 0 ==> h[last].observed)
    requires forall j :: last < j < |h| ==> !h[j].observed
    ensures !Active(h) && GoneAt(h) == h[last + 1].at
    decreases |h|
  {
    var n := |h| - 1;
    if n > 0 && !h[n - 1].observed { GoneAfter(h[..n], last); }
  }

  // ---- events ----

  function Change(before: Verdict, now: Verdict): seq<Event> {
    if before.observed && !now.observed then [Gone(now.at)]
    else if !before.observed && now.observed then [Returned(now.at)]
    else []
  }

  /** What is recorded over a history, run by run: each run is compared with the covering run before it. */
  function Events(h: seq<Verdict>): seq<Event> {
    if |h| < 2 then [] else Events(h[..|h| - 1]) + Change(h[|h| - 2], h[|h| - 1])
  }

  predicate Alternates(e: seq<Event>) {
    forall i :: 0 < i < |e| ==> e[i].Gone? != e[i - 1].Gone?
  }

  /** The presence that a first verdict and the events after it tell. */
  predicate ActiveAfter(first: bool, e: seq<Event>) {
    if e == [] then first else e[|e| - 1].Returned?
  }

  /** Events strictly alternate, the first one against the first verdict, and together with that verdict
      they tell the presence derived from the whole history. */
  lemma {:induction false} EventsTellPresence(h: seq<Verdict>)
    requires h != []
    ensures Alternates(Events(h)) && ActiveAfter(h[0].observed, Events(h)) == Active(h)
    ensures Events(h) != [] ==> Events(h)[0].Gone? == h[0].observed
    decreases |h|
  {
    if |h| > 1 {
      EventsTellPresence(h[..|h| - 1]);
      assert h[..|h| - 1][|h| - 2] == h[|h| - 2];
    }
  }

  predicate EverObserved(h: seq<Verdict>) { exists i :: 0 <= i < |h| && h[i].observed }

  /** Since when a finding is gone: the time of the run that recorded the latest finding_gone, if it was
      ever seen, and otherwise of the first run that looked. */
  lemma {:induction false} GoneSinceLatestGone(h: seq<Verdict>)
    requires !Active(h)
    ensures EverObserved(h) ==> Events(h) != [] && Events(h)[|Events(h)| - 1] == Gone(GoneAt(h))
    ensures !EverObserved(h) ==> Events(h) == [] && GoneAt(h) == h[0].at
    decreases |h|
  {
    var n := |h| - 1;
    if n > 0 && !h[n - 1].observed {
      GoneSinceLatestGone(h[..n]);
      assert forall i :: 0 <= i < n ==> h[..n][i] == h[i];
      if EverObserved(h) {
        var i :| 0 <= i < |h| && h[i].observed;
        assert h[..n][i].observed;
      }
    }
  }

  /** Every finding_returned follows a finding_gone. */
  predicate ReturnsFollowGone(e: seq<Event>) {
    forall i :: 0 <= i < |e| && e[i].Returned? ==> 0 < i && e[i - 1].Gone?
  }

  /** That a returned finding had been gone is so exactly when the first run that looked saw it, or none
      ever did: a finding new on a host that was covered before is recorded as returned. */
  lemma ReturnsFollowGoneExactly(h: seq<Verdict>)
    ensures ReturnsFollowGone(Events(h)) <==> h == [] || h[0].observed || !EverObserved(h)
  {
    if h != [] {
      EventsTellPresence(h);
      if !h[0].observed {
        if EverObserved(h) { SeenMeansEvents(h); } else { GoneSinceLatestGone(h); }
      }
    }
  }

  lemma {:induction false} SeenMeansEvents(h: seq<Verdict>)
    requires h != [] && !h[0].observed && EverObserved(h)
    ensures Events(h) != []
    decreases |h|
  {
    var n := |h| - 1;
    var i :| 0 <= i < |h| && h[i].observed;
    if i < n {
      assert h[..n][i].observed;
      SeenMeansEvents(h[..n]);
    } else if h[n - 1].observed {
      assert h[..n][n - 1].observed;
      SeenMeansEvents(h[..n]);
    }
  }

  lemma NewOnACoveredHostReturns()
    ensures Events([Verdict(1, false), Verdict(2, true)]) == [Returned(2)]
  {
    var h := [Verdict(1, false), Verdict(2, true)];
    assert h[..1] == [Verdict(1, false)];
  }

  // ---- recording, for all findings at once ----

  type Id = nat

  /** A completed run: when it started, and its verdict on each finding it covered. */
  datatype Run = Run(at: int, verdicts: map<Id, bool>)

  /** A finding's history: the runs that covered it. */
  function History(runs: seq<Run>, f: Id): seq<Verdict> {
    if runs == [] then []
    else
      var last := runs[|runs| - 1];
      History(runs[..|runs| - 1], f) + if f in last.verdicts then [Verdict(last.at, last.verdicts[f])] else []
  }

  /** What one run has to say about a finding it covered. */
  datatype Presented = Presented(id: Id, hasPrevious: bool, observedBefore: bool, observedNow: bool)

  /** c compares the verdict of the latest run with that of the covering run before it. */
  predicate Compares(c: Presented, runs: seq<Run>)
    requires runs != []
  {
    var before, last := History(runs[..|runs| - 1], c.id), runs[|runs| - 1];
    && c.id in last.verdicts && c.observedNow == last.verdicts[c.id]
    && c.hasPrevious == (before != []) && c.observedBefore == (before != [] && before[|before| - 1].observed)
  }

  /** The findings a run covers, each once, leaving out those no run has seen: they do not exist yet. */
  predicate Covers(changes: seq<Presented>, runs: seq<Run>)
    requires runs != []
  {
    && (forall i :: 0 <= i < |changes| ==> Compares(changes[i], runs))
    && (forall i, j :: 0 <= i < j < |changes| ==> changes[i].id != changes[j].id)
    && (forall f :: f in runs[|runs| - 1].verdicts && EverObserved(History(runs, f)) ==>
          exists i :: 0 <= i < |changes| && changes[i].id == f)
  }

  datatype Record = Record(id: Id, event: Event)

  function RecordOf(c: Presented, at: int): seq<Record> {
    if !c.hasPrevious then []
    else if c.observedBefore && !c.observedNow then [Record(c.id, Gone(at))]
    else if !c.observedBefore && c.observedNow then [Record(c.id, Returned(at))]
    else []
  }

  function RecordsOf(changes: seq<Presented>, at: int): seq<Record> {
    if changes == [] then [] else RecordsOf(changes[..|changes| - 1], at) + RecordOf(changes[|changes| - 1], at)
  }

  /** The events of one finding among all records. */
  function About(records: seq<Record>, f: Id): seq<Event> {
    if records == [] then []
    else
      var r := records[|records| - 1];
      About(records[..|records| - 1], f) + if r.id == f then [r.event] else []
  }

  /** The events table as runs complete one after the other. */
  class Differ {
    var records: seq<Record>
    ghost var runs: seq<Run>

    /** Every finding has had exactly the events its history tells. */
    ghost predicate Valid()
      reads this
    {
      forall f :: About(records, f) == Events(History(runs, f))
    }

    constructor ()
      ensures Valid() && runs == [] && records == []
    {
      records, runs := [], [];
    }

    method FindingPresence(ghost run: Run, at: int, changes: seq<Presented>) returns (n: nat)
      requires Valid() && at == run.at && Covers(changes, runs + [run])
      modifies this
      ensures Valid() && runs == old(runs) + [run]
      ensures records == old(records) + RecordsOf(changes, at) && n == |RecordsOf(changes, at)|
    {
      n := RecordAll(at, changes);
      RunsRecorded(old(records), runs, run, changes);
      runs := runs + [run];
    }

    method RecordAll(at: int, changes: seq<Presented>) returns (n: nat)
      modifies this`records
      ensures records == old(records) + RecordsOf(changes, at) && n == |RecordsOf(changes, at)|
    {
      n := 0;
      for i := 0 to |changes|
        invariant records == old(records) + RecordsOf(changes[..i], at) && n == |RecordsOf(changes[..i], at)|
      {
        assert changes[..i + 1][..i] == changes[..i];
        var c := changes[i];
        if !c.hasPrevious { continue; }
        if c.observedBefore && !c.observedNow {
          records := records + [Record(c.id, Gone(at))];
          n := n + 1;
        } else if !c.observedBefore && c.observedNow {
          records := records + [Record(c.id, Returned(at))];
          n := n + 1;
        }
      }
      assert changes[..|changes|] == changes;
    }
  }

  lemma RunsRecorded(records: seq<Record>, runs: seq<Run>, run: Run, changes: seq<Presented>)
    requires Covers(changes, runs + [run]) && forall f :: About(records, f) == Events(History(runs, f))
    ensures forall f :: About(records + RecordsOf(changes, run.at), f) == Events(History(runs + [run], f))
  {
    forall f ensures About(records + RecordsOf(changes, run.at), f) == Events(History(runs + [run], f)) {
      RunRecorded(runs, run, changes, f);
      AboutBoth(records, RecordsOf(changes, run.at), f);
    }
  }

  lemma {:induction false} AboutBoth(a: seq<Record>, b: seq<Record>, f: Id)
    ensures About(a + b, f) == About(a, f) + About(b, f)
    decreases |b|
  {
    if b == [] {
      assert a + b == a;
    } else {
      assert (a + b)[..|a + b| - 1] == a + b[..|b| - 1];
      AboutBoth(a, b[..|b| - 1], f);
    }
  }

  predicate Names(changes: seq<Presented>, f: Id) {
    exists i :: 0 <= i < |changes| && changes[i].id == f
  }

  lemma {:induction false} AboutRecords(changes: seq<Presented>, at: int, f: Id)
    requires forall i, j :: 0 <= i < j < |changes| ==> changes[i].id != changes[j].id
    ensures !Names(changes, f) ==> About(RecordsOf(changes, at), f) == []
    ensures forall i :: 0 <= i < |changes| && changes[i].id == f ==>
              About(RecordsOf(changes, at), f) == About(RecordOf(changes[i], at), f)
    decreases |changes|
  {
    if changes != [] {
      var n := |changes| - 1;
      AboutRecords(changes[..n], at, f);
      AboutBoth(RecordsOf(changes[..n], at), RecordOf(changes[n], at), f);
      assert forall i :: 0 <= i < n ==> changes[..n][i] == changes[i];
      assert Names(changes[..n], f) ==> Names(changes, f);
    }
  }

  lemma OneRecord(c: Presented, at: int, f: Id)
    ensures c.id != f ==> About(RecordOf(c, at), f) == []
    ensures c.id == f && RecordOf(c, at) != [] ==> About(RecordOf(c, at), f) == [RecordOf(c, at)[0].event]
    ensures RecordOf(c, at) == [] ==> About(RecordOf(c, at), f) == []
  {
    var r := RecordOf(c, at);
    if r != [] { assert r[..0] == []; }
  }

  /** What a run records about a finding is what its history gains. */
  lemma RunRecorded(runs: seq<Run>, run: Run, changes: seq<Presented>, f: Id)
    requires Covers(changes, runs + [run])
    ensures Events(History(runs + [run], f)) == Events(History(runs, f)) + About(RecordsOf(changes, run.at), f)
  {
    var all := runs + [run];
    assert all[..|runs|] == runs;
    var before, after := History(runs, f), History(all, f);
    AboutRecords(changes, run.at, f);
    if i :| 0 <= i < |changes| && changes[i].id == f {
      assert Compares(changes[i], all);
      OneRecord(changes[i], run.at, f);
      assert after[..|after| - 1] == before && after[|after| - 1] == Verdict(run.at, run.verdicts[f]);
      if before != [] {
        assert after[|after| - 2] == before[|before| - 1];
        assert About(RecordOf(changes[i], run.at), f) == Change(before[|before| - 1], after[|after| - 1]);
      }
    } else if f in run.verdicts {
      assert !Names(changes, f);
      assert after[..|after| - 1] == before;
      assert !EverObserved(after);
      GoneSinceLatestGone(after);
      if before != [] { NeverObserved(after, before); }
    } else {
      assert !Names(changes, f) && after == before;
    }
  }

  lemma NeverObserved(after: seq<Verdict>, before: seq<Verdict>)
    requires after != [] && before == after[..|after| - 1] && before != [] && !EverObserved(after)
    ensures Events(before) == []
  {
    assert forall i :: 0 <= i < |before| ==> before[i] == after[i];
    GoneSinceLatestGone(before);
  }
}
