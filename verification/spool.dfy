/** The worker's spool directory and its operations. */
module Spool {
  import opened Text
  import opened SpoolNames

  const MAX_SPOOL_FILES: nat := 2000

  /** One batch on disk. */
  datatype Entry = Entry(time: nat, task: string, seqNo: nat)
  {
    predicate Nameable() { time < Pow10(20) && seqNo < Pow10(6) }

    function FileName(): string
      requires Nameable()
    {
      Name(time, task, seqNo)
    }
  }

  type Directory = map<string, Entry>

  datatype Outcome = Delivered | Refused | Unreachable

  /** The files in the order they are replayed. */
  ghost function Pending(dir: Directory): seq<string> { SortedOf(dir.Keys) }

  ghost predicate HasPending(dir: Directory, task: string) {
    task != "" && exists n :: n in dir.Keys && Contains(n, Needle(task))
  }

  lemma NoTaskNothingPending(dir: Directory)
    ensures !HasPending(dir, "")
  {
  }

  /** Past the cap the oldest files go, to leave room for one more. */
  ghost function Trimmed(dir: Directory): Directory {
    var names := Pending(dir);
    if |names| < MAX_SPOOL_FILES then dir
    else dir - Elements(names[..|names| - MAX_SPOOL_FILES + 1])
  }

  ghost function Stored(dir: Directory, e: Entry): Directory
    requires e.Nameable()
  {
    Trimmed(dir)[e.FileName() := e]
  }

  lemma CutInTwo(names: seq<string>, k: nat, x: string, y: string)
    requires Ascending(names) && k <= |names| && x in names[..k] && y in names[k..]
    ensures LexLess(x, y) && x != y
  {
    var i :| 0 <= i < k && names[..k][i] == x;
    var j :| 0 <= j < |names[k..]| && names[k..][j] == y;
    assert LexLess(names[i], names[k + j]);
    LexIrreflexive(x);
  }

  lemma CutElements(names: seq<string>, k: nat)
    requires Ascending(names) && k <= |names|
    ensures Elements(names) - Elements(names[..k]) == Elements(names[k..])
    ensures |Elements(names[k..])| == |names| - k
  {
    assert names == names[..k] + names[k..];
    forall x, y | x in names[..k] && y in names[k..] ensures x != y { CutInTwo(names, k, x, y); }
    AscendingLength(names[k..]);
  }

  lemma CutKeepsNewest(dir: Directory, names: seq<string>, k: nat, rest: Directory)
    requires Ascending(names) && Elements(names) == dir.Keys && k <= |names| && rest == dir - Elements(names[..k])
    ensures |rest| == |names| - k
    ensures forall x, y :: x in dir && x !in rest && y in rest ==> LexLess(x, y)
  {
    CutElements(names, k);
    assert rest.Keys == Elements(names[k..]);
    assert |rest| == |rest.Keys|;
    forall x, y | x in dir && x !in rest && y in rest ensures LexLess(x, y) {
      assert x in Elements(names[..k]) && y in Elements(names[k..]);
      CutInTwo(names, k, x, y);
    }
  }

  /** Below the cap nothing goes. At the cap one file less than it stays, and every file that goes sorts before
      every one that stays. */
  lemma TrimmedKeepsNewest(dir: Directory, rest: Directory, max: nat)
    requires rest == Trimmed(dir) && max == MAX_SPOOL_FILES
    ensures |dir| < max ==> rest == dir
    ensures |dir| >= max ==> |rest| == max - 1
    ensures forall x, y :: x in dir && x !in rest && y in rest ==> LexLess(x, y)
    ensures forall y :: y in rest ==> y in dir && rest[y] == dir[y]
  {
    var names := Pending(dir);
    AscendingLength(names);
    assert |dir.Keys| == |dir|;
    if |dir| >= max { CutKeepsNewest(dir, names, |names| - max + 1, rest); }
  }

  /** What a replay over `names` leaves, given how each attempt went and which files cannot be read; it is
      stopped where the outcomes run out. */
  function Replayed(dir: Directory, names: seq<string>, outcomes: seq<Outcome>, bad: set<string>): Directory
    decreases |names|
  {
    if names == [] || outcomes == [] then dir
    else if names[0] in bad then Replayed(dir - {names[0]}, names[1..], outcomes, bad)
    else if outcomes[0].Unreachable? then dir
    else Replayed(dir - {names[0]}, names[1..], outcomes[1..], bad)
  }

  /** The files a replay sends. */
  function Tried(names: seq<string>, outcomes: seq<Outcome>, bad: set<string>): (r: seq<string>)
    ensures |r| <= |outcomes| && forall n :: n in r ==> n in names && n !in bad
    decreases |names|
  {
    if names == [] || outcomes == [] then []
    else if names[0] in bad then Tried(names[1..], outcomes, bad)
    else if outcomes[0].Unreachable? then [names[0]]
    else [names[0]] + Tried(names[1..], outcomes[1..], bad)
  }

  lemma NextElement(names: seq<string>, i: nat)
    requires i < |names|
    ensures Elements(names[..i + 1]) == Elements(names[..i]) + {names[i]}
  {
    assert names[..i + 1] == names[..i] + [names[i]];
  }

  /** One file of a replay. */
  lemma NextFile(dir: Directory, names: seq<string>, i: nat, outcomes: seq<Outcome>, k: nat, bad: set<string>)
    requires i < |names| && k < |outcomes|
    ensures
      var n, left, later := names[i], Replayed(dir, names[i..], outcomes[k..], bad), Tried(names[i..], outcomes[k..], bad);
      if n in bad then
        left == Replayed(dir - {n}, names[i + 1..], outcomes[k..], bad) && later == Tried(names[i + 1..], outcomes[k..], bad)
      else if outcomes[k].Unreachable? then left == dir && later == [n]
      else
        && left == Replayed(dir - {n}, names[i + 1..], outcomes[k + 1..], bad)
        && later == [n] + Tried(names[i + 1..], outcomes[k + 1..], bad)
  {
    assert names[i..][1..] == names[i + 1..] && outcomes[k..][1..] == outcomes[k + 1..];
  }

  class Spool {
    var dir: Directory

    constructor ()
      ensures dir == map[]
    {
      dir := map[];
    }

    method ListPending() returns (names: seq<string>)
      ensures names == Pending(dir)
    {
      names := Sort(dir.Keys);
    }

    method CheckPending(task: string) returns (found: bool)
      ensures found <==> HasPending(dir, task)
    {
      if task == "" { return false; }
      var names := ListPending();
      assert Elements(names) == dir.Keys;
      for i := 0 to |names|
        invariant forall j :: 0 <= j < i ==> !Contains(names[j], Needle(task))
      {
        if Contains(names[i], Needle(task)) {
          assert names[i] in Elements(names);
          return true;
        }
      }
      forall n | n in dir.Keys ensures !Contains(n, Needle(task)) {
        assert n in names;
      }
      return false;
    }

    method Trim()
      modifies this
      ensures dir == Trimmed(old(dir))
    {
      var names := ListPending();
      if |names| < MAX_SPOOL_FILES { return; }
      var drop := names[..|names| - MAX_SPOOL_FILES + 1];
      for i := 0 to |drop|
        invariant dir == old(dir) - Elements(drop[..i])
      {
        NextElement(drop, i);
        dir := dir - {drop[i]};
      }
      assert drop[..|drop|] == drop;
    }

    method Put(e: Entry)
      requires e.Nameable()
      modifies this
      ensures dir == Stored(old(dir), e)
    {
      Trim();
      dir := dir[e.FileName() := e];
    }

    /** `outcomes` is what the network answers, in order; when it runs out the replay is cancelled. Files in
        `bad` cannot be read or parsed, and go without being sent. */
    method Replay(outcomes: seq<Outcome>, bad: set<string>) returns (sent: seq<Entry>)
      modifies this
      ensures dir == Replayed(old(dir), Pending(old(dir)), outcomes, bad)
      ensures
        var tried := Tried(Pending(old(dir)), outcomes, bad);
        |sent| == |tried| && forall i :: 0 <= i < |sent| ==> tried[i] in old(dir) && sent[i] == old(dir)[tried[i]]
    {
      var names := ListPending();
      AscendingDistinct(names);
      assert forall i :: 0 <= i < |names| ==> names[i] in Elements(names);
      sent := ReplayNames(names, outcomes, bad);
    }

    method ReplayNames(names: seq<string>, outcomes: seq<Outcome>, bad: set<string>) returns (sent: seq<Entry>)
      requires forall i :: 0 <= i < |names| ==> names[i] in dir
      requires forall i, j :: 0 <= i < j < |names| ==> names[i] != names[j]
      modifies this
      ensures dir == Replayed(old(dir), names, outcomes, bad)
      ensures
        var tried := Tried(names, outcomes, bad);
        |sent| == |tried| && forall i :: 0 <= i < |sent| ==> tried[i] in old(dir) && sent[i] == old(dir)[tried[i]]
    {
      sent := [];
      var k := 0;
      ghost var all, tried: seq<string> := dir, [];
      for i := 0 to |names|
        invariant k <= |outcomes| && |sent| == |tried|
        invariant forall j :: i <= j < |names| ==> names[j] in dir && dir[names[j]] == all[names[j]]
        invariant forall j :: 0 <= j < |sent| ==> tried[j] in all && sent[j] == all[tried[j]]
        invariant Replayed(all, names, outcomes, bad) == Replayed(dir, names[i..], outcomes[k..], bad)
        invariant Tried(names, outcomes, bad) == tried + Tried(names[i..], outcomes[k..], bad)
      {
        if k == |outcomes| { return; }
        var n := names[i];
        NextFile(dir, names, i, outcomes, k, bad);
        if n in bad {
          dir := dir - {n};
          continue;
        }
        sent := sent + [dir[n]];
        tried := tried + [n];
        if outcomes[k].Unreachable? { return; }
        dir := dir - {n};
        k := k + 1;
      }
    }
  }

  lemma AscendingDistinct(names: seq<string>)
    requires Ascending(names)
    ensures forall i, j :: 0 <= i < j < |names| ==> names[i] != names[j]
  {
    forall i, j | 0 <= i < j < |names| ensures names[i] != names[j] {
      LexIrreflexive(names[i]);
    }
  }
}
