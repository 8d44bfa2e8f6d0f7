/** A replay of the spool, as one run of delivery steps. */
module Replay {
  import opened Spool
  import opened Delivery

  predicate Answers(outcomes: seq<Outcome>, verdicts: seq<Verdict>) {
    |outcomes| == |verdicts| && forall i :: 0 <= i < |outcomes| ==> Consistent(outcomes[i], verdicts[i])
  }

  /** The steps of a replay over the files in rest, stopped where the answers run out. */
  function ReplaySteps(rest: seq<string>, outcomes: seq<Outcome>, verdicts: seq<Verdict>, bad: set<string>): seq<Step>
    requires |outcomes| == |verdicts|
    decreases |rest|
  {
    if rest == [] || outcomes == [] then [ReplayStop]
    else if rest[0] in bad then [ReplayDrop] + ReplaySteps(rest[1..], outcomes, verdicts, bad)
    else if outcomes[0].Unreachable? then [ReplayPost(outcomes[0], verdicts[0])]
    else [ReplayPost(outcomes[0], verdicts[0])] + ReplaySteps(rest[1..], outcomes[1..], verdicts[1..], bad)
  }

  /** The sends of the files tried. */
  function SendsOf(dir: Directory, tried: seq<string>, verdicts: seq<Verdict>): seq<Sent>
    requires |tried| <= |verdicts| && forall i :: 0 <= i < |tried| ==> tried[i] in dir
  {
    seq(|tried|, i requires 0 <= i < |tried| => Sent(dir[tried[i]].task, dir[tried[i]].seqNo, verdicts[i]))
  }

  predicate Listed(dir: Directory, names: seq<string>) {
    && (forall i :: 0 <= i < |names| ==> names[i] in dir)
    && (forall i, j :: 0 <= i < j < |names| ==> names[i] != names[j])
  }

  lemma ListedTail(dir: Directory, rest: seq<string>)
    requires Listed(dir, rest) && rest != []
    ensures Listed(dir - {rest[0]}, rest[1..])
  {
  }

  /** Files tried are as they were when one that is not among them goes. */
  lemma SendsWithout(dir: Directory, n: string, rest: seq<string>, tried: seq<string>, verdicts: seq<Verdict>)
    requires Listed(dir, rest) && rest != [] && n == rest[0] && |tried| <= |verdicts| && forall x :: x in tried ==> x in rest[1..]
    ensures forall i :: 0 <= i < |tried| ==> tried[i] in dir - {n} && tried[i] in dir
    ensures SendsOf(dir - {n}, tried, verdicts) == SendsOf(dir, tried, verdicts)
  {
    forall i | 0 <= i < |tried| ensures tried[i] in dir - {n} && (dir - {n})[tried[i]] == dir[tried[i]] {
      assert tried[i] in rest[1..];
    }
  }

  lemma SendsMore(dir: Directory, n: string, tried: seq<string>, verdicts: seq<Verdict>)
    requires n in dir && |tried| < |verdicts| && forall i :: 0 <= i < |tried| ==> tried[i] in dir
    ensures SendsOf(dir, [n] + tried, verdicts) ==
            [Sent(dir[n].task, dir[n].seqNo, verdicts[0])] + SendsOf(dir, tried, verdicts[1..])
  {
  }

  /** What a whole replay comes to. */
  ghost predicate Completes(s: State, steps: seq<Step>, dir: Directory, sends: seq<Sent>) {
    Runs(s, steps) &&
    var s' := After(s, steps);
    s'.replayer.Idle? && s'.execs == s.execs && s'.dir == dir && s'.sent == s.sent + sends
  }

  /** What a whole replay leaves on disk and has sent is what its steps, taken one at a time among all
      others, leave and send; so the spool's own replay is covered by what holds of every interleaving. */
  lemma {:induction false} ReplayIsSteps(s: State, rest: seq<string>, outcomes: seq<Outcome>, verdicts: seq<Verdict>, bad: set<string>)
    requires s.replayer == Replaying(rest) && Listed(s.dir, rest) && Answers(outcomes, verdicts)
    ensures forall n :: n in Tried(rest, outcomes, bad) ==> n in s.dir
    ensures Completes(s, ReplaySteps(rest, outcomes, verdicts, bad), Replayed(s.dir, rest, outcomes, bad),
                      SendsOf(s.dir, Tried(rest, outcomes, bad), verdicts))
    decreases |rest|
  {
    var none: seq<Step> := [];
    if rest == [] || outcomes == [] {
      StopsThere(s);
      assert s.sent + [] == s.sent;
    } else if rest[0] in bad {
      DropThenReplay(s, rest, outcomes, verdicts, bad);
    } else if outcomes[0].Unreachable? {
      PostAndStop(s, rest, outcomes[0], verdicts);
    } else {
      PostThenReplay(s, rest, outcomes, verdicts, bad);
    }
  }

  lemma DropThenReplay(s: State, rest: seq<string>, outcomes: seq<Outcome>, verdicts: seq<Verdict>, bad: set<string>)
    requires s.replayer == Replaying(rest) && Listed(s.dir, rest) && Answers(outcomes, verdicts)
    requires rest != [] && outcomes != [] && rest[0] in bad
    ensures forall n :: n in Tried(rest, outcomes, bad) ==> n in s.dir
    ensures Completes(s, ReplaySteps(rest, outcomes, verdicts, bad), Replayed(s.dir, rest, outcomes, bad),
                      SendsOf(s.dir, Tried(rest, outcomes, bad), verdicts))
    decreases |rest|, 0
  {
    var s1 := Apply(s, ReplayDrop);
    ListedTail(s.dir, rest);
    ReplayIsSteps(s1, rest[1..], outcomes, verdicts, bad);
    SendsWithout(s.dir, rest[0], rest, Tried(rest[1..], outcomes, bad), verdicts);
    Then(s, ReplayDrop, s1, ReplaySteps(rest[1..], outcomes, verdicts, bad));
  }

  lemma PostAndStop(s: State, rest: seq<string>, outcome: Outcome, verdicts: seq<Verdict>)
    requires s.replayer == Replaying(rest) && Listed(s.dir, rest) && rest != [] && verdicts != []
    requires outcome.Unreachable? && Consistent(outcome, verdicts[0])
    ensures Completes(s, [ReplayPost(outcome, verdicts[0])], s.dir, SendsOf(s.dir, [rest[0]], verdicts))
  {
    var none: seq<Step> := [];
    var post := ReplayPost(outcome, verdicts[0]);
    assert [post] + none == [post];
    Then(s, post, Apply(s, post), none);
  }

  lemma PostThenReplay(s: State, rest: seq<string>, outcomes: seq<Outcome>, verdicts: seq<Verdict>, bad: set<string>)
    requires s.replayer == Replaying(rest) && Listed(s.dir, rest) && Answers(outcomes, verdicts)
    requires rest != [] && outcomes != [] && rest[0] !in bad && !outcomes[0].Unreachable?
    ensures forall n :: n in Tried(rest, outcomes, bad) ==> n in s.dir
    ensures Completes(s, ReplaySteps(rest, outcomes, verdicts, bad), Replayed(s.dir, rest, outcomes, bad),
                      SendsOf(s.dir, Tried(rest, outcomes, bad), verdicts))
    decreases |rest|, 0
  {
    var post := ReplayPost(outcomes[0], verdicts[0]);
    var s1, tried := Apply(s, post), Tried(rest[1..], outcomes[1..], bad);
    ListedTail(s.dir, rest);
    ReplayIsSteps(s1, rest[1..], outcomes[1..], verdicts[1..], bad);
    SendsWithout(s.dir, rest[0], rest, tried, verdicts[1..]);
    SendsMore(s.dir, rest[0], tried, verdicts);
    Then(s, post, s1, ReplaySteps(rest[1..], outcomes[1..], verdicts[1..], bad));
    assert s.sent + [Sent(s.dir[rest[0]].task, s.dir[rest[0]].seqNo, verdicts[0])] + SendsOf(s.dir, tried, verdicts[1..])
           == s.sent + SendsOf(s.dir, [rest[0]] + tried, verdicts);
  }

  lemma StopsThere(s: State)
    requires s.replayer.Replaying?
    ensures Runs(s, [ReplayStop]) && After(s, [ReplayStop]) == s.(replayer := Idle)
  {
    var none: seq<Step> := [];
    assert [ReplayStop] + none == [ReplayStop];
    Then(s, ReplayStop, s.(replayer := Idle), none);
  }
}
