/** Looking up the name of an AS number once for all who ask at the same time. */
module Asn {

  type Number = int
  type Caller = nat
  type Chan = nat

  const ATTEMPTS: nat := 3

  /** Where a caller stands. The one that opened a channel leads: it asks, stores the answer, and closes. */
  datatype At =
    | Leading(num: Number, chan: Chan, asked: nat, name: string)
    | Closing(num: Number, chan: Chan, name: string)
    | Waiting(num: Number, chan: Chan)
    | Returned(num: Number, name: string)

  /** `makers` says who opened each channel and for what number, `closes` how often each was closed. */
  datatype State = State(names: map<Number, string>, pending: map<Number, Chan>, callers: map<Caller, At>,
                         makers: seq<(Caller, Number)>, closes: multiset<Chan>)

  const START := State(map[], map[], map[], [], multiset{})

  datatype Step =
    | Enter(caller: Caller, num: Number)
    | Answer(caller: Caller, text: string)
    | GiveUp(caller: Caller)
    | Finish(caller: Caller)
    | Close(caller: Caller)
    | Wake(caller: Caller)
    | Abandon(caller: Caller)

  predicate Asking(at: At) { at.Leading? && at.asked < ATTEMPTS && at.name == "" }

  predicate Enabled(s: State, st: Step) {
    if st.Enter? then st.caller !in s.callers
    else if st.caller !in s.callers then false
    else
      var at := s.callers[st.caller];
      match st
      case Enter(_, _) => true
      case Answer(_, _) => Asking(at)
      case GiveUp(_) => Asking(at) && at.asked > 0
      case Finish(_) => at.Leading? && !Asking(at)
      case Close(_) => at.Closing?
      case Wake(_) => at.Waiting? && at.chan in s.closes
      case Abandon(_) => at.Waiting?
  }

  function NameOf(names: map<Number, string>, num: Number): string { if num in names then names[num] else "" }

  function Goes(s: State, caller: Caller, at: At): State { s.(callers := s.callers[caller := at]) }

  /** First critical section: the cached name, the channel to wait on, or a new one to lead. */
  function Entered(s: State, c: Caller, num: Number): State {
    if num in s.names then Goes(s, c, Returned(num, s.names[num]))
    else if num in s.pending then Goes(s, c, Waiting(num, s.pending[num]))
    else
      var chan := |s.makers|;
      Goes(s, c, Leading(num, chan, 0, "")).(pending := s.pending[num := chan], makers := s.makers + [(c, num)])
  }

  /** Second critical section: only a real answer is kept. */
  function Finished(s: State, c: Caller, at: At): State
    requires at.Leading?
  {
    Goes(s, c, Closing(at.num, at.chan, at.name))
      .(names := if at.name == "" then s.names else s.names[at.num := at.name], pending := s.pending - {at.num})
  }

  function Apply(s: State, st: Step): State
    requires Enabled(s, st)
  {
    if st.Enter? then Entered(s, st.caller, st.num)
    else
      var c, at := st.caller, s.callers[st.caller];
      match st
      case Enter(_, _) => s
      case Answer(_, text) => Goes(s, c, at.(asked := at.asked + 1, name := text))
      case GiveUp(_) => Goes(s, c, at.(asked := ATTEMPTS))
      case Finish(_) => Finished(s, c, at)
      case Close(_) => Goes(s, c, Returned(at.num, at.name)).(closes := s.closes + multiset{at.chan})
      case Wake(_) => Goes(s, c, Returned(at.num, NameOf(s.names, at.num)))
      case Abandon(_) => Goes(s, c, Returned(at.num, ""))
  }

  predicate Runs(s: State, steps: seq<Step>)
    decreases |steps|
  {
    steps == [] || (Enabled(s, steps[0]) && Runs(Apply(s, steps[0]), steps[1..]))
  }

  function After(s: State, steps: seq<Step>): State
    requires Runs(s, steps)
    decreases |steps|
  {
    if steps == [] then s else After(Apply(s, steps[0]), steps[1..])
  }

  // ---- the invariant ----

  predicate Holds(at: At, chan: Chan) { (at.Leading? || at.Closing?) && at.chan == chan }

  /** A channel is open while the caller that opened it leads or is about to close it, and is closed once,
      when that caller has returned. */
  predicate ChannelOk(s: State, chan: Chan)
    requires chan < |s.makers|
  {
    var (c, num) := s.makers[chan];
    && c in s.callers && s.callers[c].num == num
    && (if s.callers[c].Returned? then s.closes[chan] == 1 else Holds(s.callers[c], chan) && s.closes[chan] == 0)
  }

  ghost predicate ChannelsOk(s: State) {
    && (forall chan: Chan :: chan < |s.makers| ==> ChannelOk(s, chan))
    && (forall chan: Chan :: chan >= |s.makers| ==> s.closes[chan] == 0)
  }

  /** A number is pending exactly while somebody leads it, on the channel they opened. */
  predicate PendingOk(s: State) {
    forall num :: num in s.pending ==>
      && s.pending[num] < |s.makers| && s.makers[s.pending[num]].1 == num
      && s.makers[s.pending[num]].0 in s.callers && s.callers[s.makers[s.pending[num]].0].Leading?
  }

  predicate CallerOk(s: State, c: Caller)
    requires c in s.callers
  {
    match s.callers[c]
    case Leading(num, chan, asked, name) =>
      && chan < |s.makers| && s.makers[chan] == (c, num) && asked <= ATTEMPTS
      && num !in s.names && num in s.pending && s.pending[num] == chan
    case Closing(num, chan, name) =>
      && chan < |s.makers| && s.makers[chan] == (c, num)
      && (name != "" ==> num in s.names && s.names[num] == name)
    case Waiting(num, chan) => chan < |s.makers| && s.makers[chan].1 == num
    case Returned(num, name) => name != "" ==> num in s.names && s.names[num] == name
  }

  predicate CallersOk(s: State) { forall c :: c in s.callers ==> CallerOk(s, c) }

  predicate NamesOk(s: State) { forall num :: num in s.names ==> s.names[num] != "" && num !in s.pending }

  ghost predicate Invariant(s: State) { ChannelsOk(s) && PendingOk(s) && CallersOk(s) && NamesOk(s) }

  lemma EnterKeeps(s: State, c: Caller, num: Number, s': State)
    requires Invariant(s) && c !in s.callers && s' == Entered(s, c, num)
    ensures Invariant(s')
  {
    assert forall d :: d in s.callers ==> s'.callers[d] == s.callers[d];
    forall chan: Chan | chan < |s'.makers| ensures ChannelOk(s', chan) {
      if chan < |s.makers| { assert ChannelOk(s, chan); }
    }
    forall d | d in s'.callers ensures CallerOk(s', d) {
      if d != c { assert CallerOk(s, d); }
    }
  }

  /** A caller moving on without touching what is shared. */
  lemma MoveKeeps(s: State, c: Caller, at: At, s': State)
    requires Invariant(s) && c in s.callers && s' == Goes(s, c, at)
    requires (s.callers[c].Leading? && at.Leading? && at.chan == s.callers[c].chan && at.num == s.callers[c].num
              && at.asked <= ATTEMPTS)
             || (s.callers[c].Waiting? && at.Returned? && (at.name == "" || at.name == NameOf(s.names, at.num)))
    ensures Invariant(s')
  {
    forall chan: Chan | chan < |s'.makers| ensures ChannelOk(s', chan) { assert ChannelOk(s, chan); }
    forall d | d in s'.callers ensures CallerOk(s', d) { assert CallerOk(s, d); }
  }

  lemma FinishKeeps(s: State, c: Caller, s': State)
    requires Invariant(s) && c in s.callers && s.callers[c].Leading? && s' == Finished(s, c, s.callers[c])
    ensures Invariant(s')
  {
    var num := s.callers[c].num;
    assert CallerOk(s, c);
    forall chan: Chan | chan < |s'.makers| ensures ChannelOk(s', chan) { assert ChannelOk(s, chan); }
    forall d | d in s'.callers ensures CallerOk(s', d) {
      assert CallerOk(s, d);
      if d != c && s.callers[d].Leading? && s.callers[d].num == num { OneLeader(s, c, d); }
    }
    forall n | n in s'.pending
      ensures
        && s'.pending[n] < |s'.makers| && s'.makers[s'.pending[n]].1 == n
        && s'.makers[s'.pending[n]].0 in s'.callers && s'.callers[s'.makers[s'.pending[n]].0].Leading?
    {
      assert ChannelOk(s, s.pending[n]);
    }
  }

  lemma CloseKeeps(s: State, c: Caller, s': State)
    requires Invariant(s) && c in s.callers && s.callers[c].Closing?
    requires s' == Goes(s, c, Returned(s.callers[c].num, s.callers[c].name)).(closes := s.closes + multiset{s.callers[c].chan})
    ensures Invariant(s')
  {
    assert CallerOk(s, c);
    forall chan: Chan | chan < |s'.makers| ensures ChannelOk(s', chan) { assert ChannelOk(s, chan); }
    forall d | d in s'.callers ensures CallerOk(s', d) { assert CallerOk(s, d); }
  }

  /** Nobody asks for a number that another caller is asking for. */
  lemma OneLeader(s: State, c: Caller, d: Caller)
    requires Invariant(s) && c in s.callers && d in s.callers
    requires s.callers[c].Leading? && s.callers[d].Leading? && s.callers[c].num == s.callers[d].num
    ensures c == d
  {
    assert CallerOk(s, c) && CallerOk(s, d);
  }

  lemma StepKeepsInvariant(s: State, st: Step)
    requires Invariant(s) && Enabled(s, st)
    ensures Invariant(Apply(s, st))
  {
    var c, s' := st.caller, Apply(s, st);
    if st.Enter? {
      EnterKeeps(s, c, st.num, s');
    } else {
      var at := s.callers[c];
      assert CallerOk(s, c);
      match st
      case Answer(_, text) => MoveKeeps(s, c, at.(asked := at.asked + 1, name := text), s');
      case GiveUp(_) => MoveKeeps(s, c, at.(asked := ATTEMPTS), s');
      case Finish(_) => FinishKeeps(s, c, s');
      case Close(_) => CloseKeeps(s, c, s');
      case Wake(_) => MoveKeeps(s, c, Returned(at.num, NameOf(s.names, at.num)), s');
      case Abandon(_) => MoveKeeps(s, c, Returned(at.num, ""), s');
    }
  }

  /** In every interleaving of any number of callers. */
  lemma {:induction false} InvariantAlways(s: State, steps: seq<Step>)
    requires Invariant(s) && Runs(s, steps)
    ensures Invariant(After(s, steps))
    decreases |steps|
  {
    if steps != [] {
      StepKeepsInvariant(s, steps[0]);
      InvariantAlways(Apply(s, steps[0]), steps[1..]);
    }
  }

  // ---- what callers get out of it ----

  predicate LeadsFor(at: At, num: Number) { at.Leading? && at.num == num }

  /** A number is pending exactly while some caller leads for it, and then just one does. */
  lemma PendingExactlyWhileLed(s: State, num: Number)
    requires Invariant(s)
    ensures num in s.pending <==> exists c :: c in s.callers && LeadsFor(s.callers[c], num)
    ensures forall c, d :: c in s.callers && d in s.callers && LeadsFor(s.callers[c], num) && LeadsFor(s.callers[d], num)
              ==> c == d
  {
    if num in s.pending {
      var c := s.makers[s.pending[num]].0;
      assert ChannelOk(s, s.pending[num]);
      assert LeadsFor(s.callers[c], num);
    }
    forall c | c in s.callers && LeadsFor(s.callers[c], num) ensures num in s.pending { assert CallerOk(s, c); }
    forall c, d | c in s.callers && d in s.callers && LeadsFor(s.callers[c], num) && LeadsFor(s.callers[d], num)
      ensures c == d
    {
      OneLeader(s, c, d);
    }
  }

  /** A channel is closed at most once, and exactly once when the caller that opened it has returned. */
  lemma ClosedExactlyOnce(s: State, chan: Chan)
    requires Invariant(s)
    ensures s.closes[chan] <= 1
    ensures chan < |s.makers| ==>
              s.makers[chan].0 in s.callers && (s.closes[chan] == 1 <==> s.callers[s.makers[chan].0].Returned?)
  {
    if chan < |s.makers| { assert ChannelOk(s, chan); }
  }

  /** No waiter is forgotten: what it waits for is closed, or is held by a caller that has still to close it. */
  lemma WaitersAreServed(s: State, c: Caller)
    requires Invariant(s) && c in s.callers && s.callers[c].Waiting?
    ensures
      var chan := s.callers[c].chan;
      chan in s.closes || (chan < |s.makers| && s.makers[chan].0 in s.callers && Holds(s.callers[s.makers[chan].0], chan))
  {
    assert CallerOk(s, c);
    assert ChannelOk(s, s.callers[c].chan);
  }

  /** A waiter that is woken gets the name its leader found, if that was any. */
  lemma WaiterHearsLeader(s: State, c: Caller)
    requires Invariant(s) && Enabled(s, Wake(c))
    ensures
      var chan := s.callers[c].chan;
      && chan < |s.makers| && s.makers[chan].0 in s.callers
      && var leader := s.callers[s.makers[chan].0];
         leader.Returned? && leader.num == s.callers[c].num
         && (leader.name != "" ==> Apply(s, Wake(c)).callers[c] == leader)
  {
    var chan := s.callers[c].chan;
    assert CallerOk(s, c);
    assert ChannelOk(s, chan);
    assert CallerOk(s, s.makers[chan].0);
  }

  lemma StepKeepsNames(s: State, st: Step, num: Number)
    requires Invariant(s) && Enabled(s, st) && num in s.names
    ensures num in Apply(s, st).names && Apply(s, st).names[num] == s.names[num]
  {
    if st.Finish? { assert CallerOk(s, st.caller); }
  }

  /** A name once cached is never written again, and is never empty. */
  lemma {:induction false} CachedForGood(s: State, steps: seq<Step>, num: Number)
    requires Invariant(s) && Runs(s, steps) && num in s.names
    ensures num in After(s, steps).names && After(s, steps).names[num] == s.names[num] != ""
    decreases |steps|
  {
    if steps != [] {
      StepKeepsInvariant(s, steps[0]);
      StepKeepsNames(s, steps[0], num);
      CachedForGood(Apply(s, steps[0]), steps[1..], num);
    }
  }

  /** So all who get a name for a number get the same one. */
  lemma AnswersAgree(steps: seq<Step>, c: Caller, d: Caller)
    requires Runs(START, steps)
    requires
      var s := After(START, steps);
      && c in s.callers && d in s.callers && s.callers[c].Returned? && s.callers[d].Returned?
      && s.callers[c].num == s.callers[d].num && s.callers[c].name != "" && s.callers[d].name != ""
    ensures After(START, steps).callers[c] == After(START, steps).callers[d]
  {
    InvariantAlways(START, steps);
    var s := After(START, steps);
    assert CallerOk(s, c) && CallerOk(s, d);
  }

  /** A caller gets the cached name at once, waits for one that is being asked for, and otherwise asks itself. */
  lemma EnterExactly(s: State, c: Caller, num: Number)
    requires Enabled(s, Enter(c, num))
    ensures
      var at := Apply(s, Enter(c, num)).callers[c];
      && (num in s.names ==> at == Returned(num, s.names[num]))
      && (num !in s.names && num in s.pending ==> at == Waiting(num, s.pending[num]))
      && (num !in s.names && num !in s.pending ==> at == Leading(num, |s.makers|, 0, ""))
  {
  }

  // ---- asking ----

  /** The answers a caller got, in order. */
  function AnswersOf(steps: seq<Step>, c: Caller): seq<string> {
    if steps == [] then []
    else
      var st := steps[|steps| - 1];
      AnswersOf(steps[..|steps| - 1], c) + if st.Answer? && st.caller == c then [st.text] else []
  }

  function LastAnswer(answers: seq<string>): string { if answers == [] then "" else answers[|answers| - 1] }

  /** At most three answers, of which only the last can be a name. */
  predicate AnswersOk(answers: seq<string>) {
    |answers| <= 3 && forall i :: 0 <= i < |answers| - 1 ==> answers[i] == ""
  }

  predicate AskedOk(at: At, answers: seq<string>) {
    AnswersOk(answers) &&
    match at
    case Leading(_, _, asked, name) =>
      name == LastAnswer(answers) && (asked == |answers| || (asked == ATTEMPTS && answers != [] && name == ""))
    case Closing(_, _, name) => answers != [] && name == LastAnswer(answers)
    case Waiting(_, _) => answers == []
    case Returned(_, name) => answers != [] ==> name == LastAnswer(answers)
  }

  ghost predicate AllAsked(s: State, steps: seq<Step>) {
    forall c :: if c in s.callers then AskedOk(s.callers[c], AnswersOf(steps, c)) else AnswersOf(steps, c) == []
  }

  lemma OtherKeepsAsked(s: State, st: Step, c: Caller)
    requires Enabled(s, st) && st.caller != c
    ensures c in Apply(s, st).callers <==> c in s.callers
    ensures c in s.callers ==> Apply(s, st).callers[c] == s.callers[c]
  {
  }

  lemma CallerKeepsAsked(s: State, st: Step, answers: seq<string>)
    requires Enabled(s, st) && if st.caller in s.callers then AskedOk(s.callers[st.caller], answers) else answers == []
    ensures st.caller in Apply(s, st).callers
    ensures AskedOk(Apply(s, st).callers[st.caller], if st.Answer? then answers + [st.text] else answers)
  {
  }

  lemma StepKeepsAsked(s: State, steps: seq<Step>, st: Step)
    requires Enabled(s, st) && AllAsked(s, steps)
    ensures AllAsked(Apply(s, st), steps + [st])
  {
    var s', more := Apply(s, st), steps + [st];
    assert more[..|steps|] == steps;
    forall c ensures if c in s'.callers then AskedOk(s'.callers[c], AnswersOf(more, c)) else AnswersOf(more, c) == [] {
      if c == st.caller { CallerKeepsAsked(s, st, AnswersOf(steps, c)); } else { OtherKeepsAsked(s, st, c); }
    }
  }

  lemma {:induction false} AskedAlways(s: State, before: seq<Step>, steps: seq<Step>)
    requires Runs(s, steps) && AllAsked(s, before)
    ensures AllAsked(After(s, steps), before + steps)
    decreases |steps|
  {
    if steps == [] {
      assert before + steps == before;
    } else {
      StepKeepsAsked(s, before, steps[0]);
      AskedAlways(Apply(s, steps[0]), before + [steps[0]], steps[1..]);
      assert before + [steps[0]] + steps[1..] == before + steps;
    }
  }

  /** Whoever asks does so once to three times, stops at the first name, and returns what the last answer was; one
      that waits, or finds the name cached, never asks. */
  lemma AskersReturnTheirAnswer(steps: seq<Step>, c: Caller)
    requires Runs(START, steps) && c in After(START, steps).callers
    ensures
      var s, answers := After(START, steps), AnswersOf(steps, c);
      && |answers| <= 3 && (forall i :: 0 <= i < |answers| - 1 ==> answers[i] == "")
      && (s.callers[c].Closing? ==> answers != [])
      && (answers != [] && !s.callers[c].Leading? ==> !s.callers[c].Waiting? && s.callers[c].name == answers[|answers| - 1])
  {
    AskedAlways(START, [], steps);
    assert [] + steps == steps;
    assert AskedOk(After(START, steps).callers[c], AnswersOf(steps, c));
  }

  // ---- as it is carried out ----

  /** What a caller finds on entering. */
  datatype Entry = Cached(name: string) | Join(chan: Chan) | Lead(chan: Chan)

  class Resolver {
    var names: map<Number, string>
    var pending: map<Number, Chan>
    var nextChan: Chan
    ghost var state: State

    ghost predicate Valid()
      reads this
    {
      Invariant(state) && names == state.names && pending == state.pending && nextChan == |state.makers|
    }

    constructor ()
      ensures Valid() && state == START
    {
      names, pending, nextChan, state := map[], map[], 0, START;
    }

    method Begin(ghost c: Caller, num: Number) returns (e: Entry)
      requires Valid() && c !in state.callers
      modifies this
      ensures Valid() && state == Apply(old(state), Enter(c, num))
      ensures
        match e
        case Cached(name) => state.callers[c] == Returned(num, name)
        case Join(chan) => state.callers[c] == Waiting(num, chan)
        case Lead(chan) => state.callers[c] == Leading(num, chan, 0, "")
    {
      StepKeepsInvariant(state, Enter(c, num));
      state := Apply(state, Enter(c, num));
      if num in names {
        return Cached(names[num]);
      }
      if num in pending {
        return Join(pending[num]);
      }
      var chan := nextChan;
      pending, nextChan := pending[num := chan], nextChan + 1;
      return Lead(chan);
    }

    /** What the leader does once it has asked, up to closing the channel. */
    method Settle(ghost c: Caller, num: Number, name: string)
      requires Valid() && Enabled(state, Finish(c)) && state.callers[c].num == num && state.callers[c].name == name
      modifies this
      ensures Valid() && state == Apply(old(state), Finish(c))
    {
      StepKeepsInvariant(state, Finish(c));
      state := Apply(state, Finish(c));
      if name != "" { names := names[num := name]; }
      pending := pending - {num};
    }
  }

  /** The leader's attempts: answers[i] is the name the i-th query would bring, empty where it fails, and the
      caller's context ends before attempt `until`. */
  method Ask(answers: seq<string>, until: nat) returns (name: string, asked: nat)
    requires |answers| == ATTEMPTS
    ensures 1 <= asked <= ATTEMPTS && name == answers[asked - 1]
    ensures forall i :: 0 <= i < asked - 1 ==> answers[i] == ""
    ensures name == "" ==> asked == ATTEMPTS || asked == until || (until == 0 && asked == 1)
    ensures asked <= until || asked == 1
  {
    name, asked := "", 0;
    var attempt := 0;
    while attempt < ATTEMPTS && name == ""
      invariant 0 <= asked <= ATTEMPTS && (attempt == asked || (attempt > ATTEMPTS && name == ""))
      invariant asked == 0 ==> attempt == 0 && name == ""
      invariant asked > 0 ==> name == answers[asked - 1]
      invariant asked <= until || asked <= 1
      invariant forall i :: 0 <= i < asked - 1 ==> answers[i] == ""
      invariant attempt > ATTEMPTS ==> asked == until || (until == 0 && asked == 1)
      decreases ATTEMPTS + 1 - attempt
    {
      if attempt > 0 && attempt >= until {
        attempt := ATTEMPTS + 1;
        continue;
      }
      name := answers[attempt];
      attempt, asked := attempt + 1, asked + 1;
    }
  }
}
