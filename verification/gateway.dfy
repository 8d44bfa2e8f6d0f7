/** The control channel's heartbeat handling: what one heartbeat does to the task table. */
module Gateway {
  import opened Options
  import opened LeaseTable
  import LeaseProtocol

  /** A task the worker says it is running; older workers send no token. */
  datatype HeldLease = HeldLease(task: TaskId, token: Option<Token>)

  /** One held task: extended if still this worker's, handed back if queued again and reclaimable. */
  function BeatOne(tb: Table, w: WorkerId, h: HeldLease, until: int): Table {
    if Extendable(tb, h.task, w) then ExtendLeaseForWorker(tb, h.task, w, until)
    else if h.token.Some? then ReadoptTask(tb, h.task, w, h.token.value, until)
    else tb
  }

  predicate Lost(tb: Table, w: WorkerId, h: HeldLease) {
    !Extendable(tb, h.task, w) && !(h.token.Some? && Reclaims(tb, h.task))
  }

  function Beat(tb: Table, w: WorkerId, held: seq<HeldLease>, until: int): Table {
    if held == [] then tb
    else BeatOne(Beat(tb, w, held[..|held| - 1], until), w, held[|held| - 1], until)
  }

  function LostIn(tb: Table, w: WorkerId, held: seq<HeldLease>, until: int): set<(WorkerId, TaskId)> {
    if held == [] then {}
    else
      var n := |held| - 1;
      LostIn(tb, w, held[..n], until)
      + if Lost(Beat(tb, w, held[..n], until), w, held[n]) then {(w, held[n].task)} else {}
  }

  function Named(leases: seq<HeldLease>, running: seq<TaskId>): seq<HeldLease> {
    if leases != [] then leases else seq(|running|, i requires 0 <= i < |running| => HeldLease(running[i], None))
  }

  class Channel {
    var table: Table
    var lost: set<(WorkerId, TaskId)> // pairs already reported as lost

    constructor ()
      ensures table == map[] && lost == {}
    {
      table := map[];
      lost := {};
    }

    /** One heartbeat, as the read loop handles it. */
    method Heartbeat(w: WorkerId, stopping: bool, leases: seq<HeldLease>, running: seq<TaskId>, now: int, ttl: nat)
      modifies this
      ensures stopping ==> table == ReleaseWorkerLeases(old(table), w) && lost == old(lost)
      ensures !stopping ==>
                && table == Beat(old(table), w, Named(leases, running), now + ttl)
                && lost == old(lost) + LostIn(old(table), w, Named(leases, running), now + ttl)
    {
      if stopping {
        table := ReleaseWorkerLeases(table, w);
        return;
      }
      var held := leases;
      if held == [] {
        for i := 0 to |running|
          invariant |held| == i && forall j :: 0 <= j < i ==> held[j] == HeldLease(running[j], None)
        {
          held := held + [HeldLease(running[i], None)];
        }
      }
      assert held == Named(leases, running);
      for i := 0 to |held|
        invariant table == Beat(old(table), w, held[..i], now + ttl)
        invariant lost == old(lost) + LostIn(old(table), w, held[..i], now + ttl)
      {
        assert held[..i + 1][..i] == held[..i];
        var h := held[i];
        if Extendable(table, h.task, w) {
          table := ExtendLeaseForWorker(table, h.task, w, now + ttl);
        } else if h.token.Some? && Reclaims(table, h.task) {
          table := ReadoptTask(table, h.task, w, h.token.value, now + ttl);
        } else {
          lost := lost + {(w, h.task)};
        }
      }
      assert held[..|held|] == held;
    }
  }

  // ---- what a heartbeat comes to ----

  predicate Names(held: seq<HeldLease>, t: TaskId) { exists i :: 0 <= i < |held| && held[i].task == t }

  /** A heartbeat is about the leases it lists, or, from a worker that sends none, about the ids it lists. */
  lemma NamedAre(leases: seq<HeldLease>, running: seq<TaskId>, t: TaskId)
    ensures Names(Named(leases, running), t) <==> if leases == [] then t in running else Names(leases, t)
    ensures leases == [] ==> forall h :: h in Named(leases, running) ==> h.token == None
    ensures leases != [] ==> Named(leases, running) == leases
  {
    if leases == [] && t in running {
      var i :| 0 <= i < |running| && running[i] == t;
      assert Named(leases, running)[i].task == t;
    }
  }

  /** The token under which t is first named with one. */
  function FirstToken(held: seq<HeldLease>, t: TaskId): Option<Token> {
    if held == [] then None
    else
      var before, h := FirstToken(held[..|held| - 1], t), held[|held| - 1];
      if before.None? && h.task == t then h.token else before
  }

  /** Whether t is named, first of all, without a token. */
  predicate FirstBare(held: seq<HeldLease>, t: TaskId) {
    held != [] &&
    var before, h := held[..|held| - 1], held[|held| - 1];
    FirstBare(before, t) || (!Names(before, t) && h.task == t && h.token.None?)
  }

  lemma NamesNext(held: seq<HeldLease>, t: TaskId)
    requires held != []
    ensures Names(held, t) <==> Names(held[..|held| - 1], t) || held[|held| - 1].task == t
  {
    var before := held[..|held| - 1];
    if Names(before, t) {
      var i :| 0 <= i < |before| && before[i].task == t;
      assert held[i].task == t;
    }
    if Names(held, t) {
      var i :| 0 <= i < |held| && held[i].task == t;
      if i < |before| { assert before[i].task == t; }
    }
  }

  lemma {:induction false} FirstNamings(held: seq<HeldLease>, t: TaskId)
    ensures FirstToken(held, t).Some? ==> Names(held, t)
    ensures FirstBare(held, t) ==> Names(held, t)
    ensures Names(held, t) ==> FirstBare(held, t) || FirstToken(held, t).Some?
    decreases |held|
  {
    if held != [] {
      NamesNext(held, t);
      FirstNamings(held[..|held| - 1], t);
    }
  }

  predicate At(tb: Table, w: WorkerId, t: TaskId) {
    t in tb && (tb[t].status == Leased || tb[t].status == Running) && tb[t].worker == Some(w)
  }

  predicate Queued(tb: Table, t: TaskId) {
    t in tb && tb[t].status == Pending && tb[t].token == None && tb[t].expiredNote
  }

  /** Every task named that the worker still holds goes on until the new time under the lease it has. One
      that the reaper had queued, and that is named with a token, is the worker's again under the first token
      named. No other row changes. */
  lemma {:induction false} BeatDoes(tb: Table, w: WorkerId, held: seq<HeldLease>, until: int, t: TaskId)
    ensures t in Beat(tb, w, held, until) <==> t in tb
    ensures t in tb ==>
      var row, after := tb[t], Beat(tb, w, held, until)[t];
      if At(tb, w, t) && Names(held, t) then after == row.(status := Running, expires := Some(until))
      else if Queued(tb, t) && FirstToken(held, t).Some? then
        after == row.(status := Running, worker := Some(w), token := FirstToken(held, t), expires := Some(until))
      else after == row
    decreases |held|
  {
    if held != [] {
      NamesNext(held, t);
      FirstNamings(held[..|held| - 1], t);
      BeatDoes(tb, w, held[..|held| - 1], until, t);
    }
  }

  /** Reported lost are the tasks named that were neither the worker's nor could be handed back on the spot. */
  lemma {:induction false} LostExactly(tb: Table, w: WorkerId, held: seq<HeldLease>, until: int, t: TaskId)
    ensures (w, t) in LostIn(tb, w, held, until) <==>
            Names(held, t) && !At(tb, w, t) && (Queued(tb, t) ==> FirstBare(held, t))
    ensures forall v :: v != w ==> (v, t) !in LostIn(tb, w, held, until)
    decreases |held|
  {
    if held != [] {
      var before := held[..|held| - 1];
      NamesNext(held, t);
      FirstNamings(before, t);
      BeatDoes(tb, w, before, until, t);
      LostExactly(tb, w, before, until, t);
    }
  }

  predicate NamedOnce(held: seq<HeldLease>) { forall i, j :: 0 <= i < j < |held| ==> held[i].task != held[j].task }

  lemma {:induction false} OnceIsFirst(held: seq<HeldLease>, t: TaskId)
    requires NamedOnce(held)
    ensures FirstBare(held, t) ==> FirstToken(held, t).None?
    decreases |held|
  {
    if held != [] {
      var before := held[..|held| - 1];
      OnceIsFirst(before, t);
      FirstNamings(before, t);
      if Names(before, t) {
        var i :| 0 <= i < |before| && before[i].task == t;
        assert held[i].task == t;
      }
    }
  }

  /** Where no task is named twice, those are the tasks named that the worker does not hold afterwards. */
  lemma LostMeansNotHeld(tb: Table, w: WorkerId, held: seq<HeldLease>, until: int, t: TaskId)
    requires NamedOnce(held)
    ensures (w, t) in LostIn(tb, w, held, until) <==> Names(held, t) && !At(Beat(tb, w, held, until), w, t)
  {
    LostExactly(tb, w, held, until, t);
    BeatDoes(tb, w, held, until, t);
    OnceIsFirst(held, t);
    FirstNamings(held, t);
  }

  /** A heartbeat leaves every finished task, and every task another worker holds, as it was. */
  lemma {:induction false} BeatLeavesOthers(tb: Table, w: WorkerId, held: seq<HeldLease>, until: int, t: TaskId)
    requires t in tb && (tb[t].Terminal() || (tb[t].Live() && tb[t].worker != Some(w)))
    ensures t in Beat(tb, w, held, until) && Beat(tb, w, held, until)[t] == tb[t]
    decreases |held|
  {
    if held != [] { BeatLeavesOthers(tb, w, held[..|held| - 1], until, t); }
  }

  function BeatSteps(w: WorkerId, held: seq<HeldLease>, now: int): seq<LeaseProtocol.Step> {
    if held == [] then []
    else
      var h := held[|held| - 1];
      BeatSteps(w, held[..|held| - 1], now) + [LeaseProtocol.Extend(h.task, w, now)]
      + if h.token.Some? then [LeaseProtocol.Readopt(h.task, w, h.token.value, now)] else []
  }

  /** A heartbeat is a sequence of protocol steps, so what holds of every interleaving holds of it. */
  lemma {:induction false} BeatIsProtocolSteps(s: LeaseProtocol.State, w: WorkerId, held: seq<HeldLease>, now: int)
    requires forall h :: h in held && h.token.Some? ==> LeaseProtocol.Known(s, h.token.value)
    ensures LeaseProtocol.Runs(s, BeatSteps(w, held, now))
    ensures LeaseProtocol.After(s, BeatSteps(w, held, now)) == s.(table := Beat(s.table, w, held, now + s.ttl))
    decreases |held|
  {
    if held != [] {
      var n := |held| - 1;
      var h := held[n];
      var before := BeatSteps(w, held[..n], now);
      BeatIsProtocolSteps(s, w, held[..n], now);
      var s1 := LeaseProtocol.After(s, before);
      var extend := LeaseProtocol.Extend(h.task, w, now);
      LeaseProtocol.InTwoParts(s, before, [extend]);
      LeaseProtocol.OneStep(s1, extend);
      if h.token.Some? {
        var readopt := LeaseProtocol.Readopt(h.task, w, h.token.value, now);
        LeaseProtocol.InTwoParts(s, before + [extend], [readopt]);
        LeaseProtocol.OneStep(LeaseProtocol.Apply(s1, extend), readopt);
        assert h in held;
      } else {
        assert BeatSteps(w, held, now) == before + [extend];
      }
    }
  }
}
