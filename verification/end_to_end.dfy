/** From the observations a worker made to the summary the planner reads: delivery through the spool and
    folding at the gateway, taken together. */
module EndToEnd {
  import opened Summary
  import opened Delivery

  /** The batch numbers of a task that the gateway accepted, in the order it accepted them. */
  function AcceptedOf(sent: seq<Sent>, task: string): seq<nat> {
    if sent == [] then []
    else
      var x := sent[|sent| - 1];
      AcceptedOf(sent[..|sent| - 1], task) + if x.task == task && x.verdict.Accepted? then [x.seqNo] else []
  }

  predicate NoneDeclined(sent: seq<Sent>, task: string) {
    forall i :: 0 <= i < |sent| && sent[i].task == task ==> !sent[i].verdict.Declined?
  }

  /** Every attempt is for a batch its execution has. */
  predicate SentBounded(s: State) {
    forall i :: 0 <= i < |s.sent| ==>
      s.sent[i].task in s.execs && s.sent[i].seqNo < s.execs[s.sent[i].task].total
  }

  lemma StepKeepsBounds(s: State, st: Step)
    requires Delivery.Invariant(s) && SentBounded(s) && Enabled(s, st)
    ensures SentBounded(Apply(s, st))
  {
    TotalsStay(s, st);
    if st.Post? {
      assert ExecOk(s, st.task);
      SentMore(s, Apply(s, st), Sent(st.task, s.execs[st.task].next, st.verdict));
    } else if st.ReplayPost? {
      var b := s.dir[s.replayer.rest[0]];
      assert EntryOk(s, s.replayer.rest[0]) && ExecOk(s, b.task);
      SentMore(s, Apply(s, st), Sent(b.task, b.seqNo, st.verdict));
    } else {
      assert Apply(s, st).sent == s.sent;
    }
  }

  lemma TotalsStay(s: State, st: Step)
    requires Enabled(s, st)
    ensures forall u :: u in s.execs ==> u in Apply(s, st).execs && Apply(s, st).execs[u].total == s.execs[u].total
  {
  }

  lemma SentMore(s: State, s': State, x: Sent)
    requires SentBounded(s) && s'.sent == s.sent + [x] && x.task in s.execs && x.seqNo < s.execs[x.task].total
    requires forall u :: u in s.execs ==> u in s'.execs && s'.execs[u].total == s.execs[u].total
    ensures SentBounded(s')
  {
  }

  lemma {:induction false} BoundsAlways(s: State, steps: seq<Step>)
    requires Delivery.Invariant(s) && SentBounded(s) && Runs(s, steps) && Lossless(s, steps)
    ensures SentBounded(After(s, steps))
    decreases |steps|
  {
    if steps != [] {
      StepKeepsBounds(s, steps[0]);
      Delivery.StepKeepsInvariant(s, steps[0]);
      BoundsAlways(Apply(s, steps[0]), steps[1..]);
    }
  }

  lemma {:induction false} AcceptedMember(sent: seq<Sent>, i: nat)
    requires i < |sent| && sent[i].verdict.Accepted?
    ensures sent[i].seqNo in AcceptedOf(sent, sent[i].task)
    decreases |sent|
  {
    if i < |sent| - 1 { AcceptedMember(sent[..|sent| - 1], i); }
  }

  /** Batches sent in order and never declined are accepted each in its turn. */
  lemma {:induction false} AcceptedInTurn(sent: seq<Sent>, task: string) returns (next: nat)
    requires InOrder(sent) && NoneDeclined(sent, task)
    ensures InTurn(AcceptedOf(sent, task), next)
    decreases |sent|
  {
    if sent == [] { return 0; }
    var n := |sent| - 1;
    var x := sent[n];
    var before := AcceptedOf(sent[..n], task);
    InOrderPrefix(sent[..n], sent);
    next := AcceptedInTurn(sent[..n], task);
    if x.task == task && x.verdict.Accepted? {
      assert AcceptedOf(sent, task)[..|before|] == before;
      if x.seqNo > next {
        assert Settled(sent, n, task, next);
        var j :| 0 <= j < n && sent[j].task == task && sent[j].seqNo == next && !sent[j].verdict.Unheard?;
        assert sent[..n][j] == sent[j];
        AcceptedMember(sent[..n], j);
        InTurnBounds(before, next);
        assert false;
      }
      if x.seqNo == next { next := next + 1; }
    } else {
      assert AcceptedOf(sent, task) == before;
    }
  }

  lemma {:induction false} AcceptedBounded(sent: seq<Sent>, task: string, total: nat)
    requires forall i :: 0 <= i < |sent| && sent[i].task == task ==> sent[i].seqNo < total
    ensures forall i :: 0 <= i < |AcceptedOf(sent, task)| ==> AcceptedOf(sent, task)[i] < total
    decreases |sent|
  {
    if sent != [] { AcceptedBounded(sent[..|sent| - 1], task, total); }
  }

  /** Numbers accepted in turn have no gaps. */
  lemma {:induction false} InTurnNoGaps(order: seq<nat>, next: nat, k: nat)
    requires InTurn(order, next) && k < next
    ensures k in order
    decreases |order|
  {
    if order != [] {
      var n := |order| - 1;
      if order[n] < next && InTurn(order[..n], next) {
        InTurnNoGaps(order[..n], next, k);
      } else if k < next - 1 {
        InTurnNoGaps(order[..n], next - 1, k);
      }
    }
  }

  /** The accepted batches of a task whose last one is among them, and none declined, are all of them. */
  lemma AllAccepted(sent: seq<Sent>, task: string, total: nat, last: nat) returns (next: nat)
    requires InOrder(sent) && NoneDeclined(sent, task) && last < |sent|
    requires sent[last].task == task && sent[last].seqNo == total - 1 && sent[last].verdict.Accepted?
    requires forall i :: 0 <= i < |sent| && sent[i].task == task ==> sent[i].seqNo < total
    ensures next == total && InTurn(AcceptedOf(sent, task), next)
    ensures forall i :: 0 <= i < |AcceptedOf(sent, task)| ==> AcceptedOf(sent, task)[i] < total
  {
    var order := AcceptedOf(sent, task);
    AcceptedBounded(sent, task, total);
    next := AcceptedInTurn(sent, task);
    InTurnBounds(order, next);
    AcceptedMember(sent, last);
    if next > total {
      InTurnNoGaps(order, next, total);
      assert false;
    }
  }

  /** Whatever outages, failed writes, re-sends and replays lie between: if no unheard batch was dropped, none
      was posted past one on disk, none of the task was declined and its closing batch was accepted, the
      stored summary is that of exactly the observations the worker made, behind those of earlier attempts. */
  lemma SummaryArrivesWhole(steps: seq<Step>, task: string, earlier: seq<Observation>, obs: seq<Observation>,
                            batches: seq<seq<Observation>>, last: nat)
    requires Runs(INITIAL, steps) && Lossless(INITIAL, steps) && NeverAhead(INITIAL, steps)
    requires
      var s := After(INITIAL, steps);
      && task in s.execs && s.execs[task].total == |batches| && NoneDeclined(s.sent, task)
      && last < |s.sent| && s.sent[last].task == task && s.sent[last].seqNo == |batches| - 1
      && s.sent[last].verdict.Accepted?
    requires Flatten(batches) == obs
    ensures
      var order := AcceptedOf(After(INITIAL, steps).sent, task);
      && (forall i :: 0 <= i < |order| ==> order[i] < |batches|)
      && FoldedOnto(Summarize(earlier), Pick(batches, order)) == Summarize(earlier + obs)
  {
    var s := After(INITIAL, steps);
    var order := AcceptedOf(s.sent, task);
    InOrderExactly(INITIAL, steps);
    BoundsAlways(INITIAL, steps);
    var next := AllAccepted(s.sent, task, |batches|, last);
    AtLeastOnceInTurn(batches, order, next);
    assert batches[..next] == batches;
    FoldedOntoEarlier(earlier, Pick(batches, order));
    CuttingMakesNoDifference(Pick(batches, order));
    SameBehind(earlier, Flatten(Pick(batches, order)), obs);
  }
}
