/** File names of spooled batches: twenty digits of nanotime, the task id, six digits of sequence. */
module SpoolNames {
  import opened Text

  predicate DashAt(i: int) { i == 8 || i == 13 || i == 18 || i == 23 }

  /** The text form of a task id: 36 characters, dashes in the four usual places and nowhere else. */
  predicate IsUuid(u: string) {
    |u| == 36 && forall i :: 0 <= i < 36 ==> (u[i] == '-' <==> DashAt(i))
  }

  function Joined(time: string, task: string, seqNo: string, dash: string, ext: string): string {
    time + (dash + (task + (dash + (seqNo + ext))))
  }

  function Name(time: nat, task: string, seqNo: nat): string
    requires time < Pow10(20) && seqNo < Pow10(6)
  {
    Joined(Padded(time, 20), task, Padded(seqNo, 6), "-", ".json")
  }

  /** Names of equally long pieces compare piece by piece. */
  lemma JoinedOrder(t1: string, u1: string, s1: string, t2: string, u2: string, s2: string, dash: string, ext: string)
    requires |t1| == |t2| && |u1| == |u2| && |s1| == |s2|
    ensures LexLess(Joined(t1, u1, s1, dash, ext), Joined(t2, u2, s2, dash, ext)) <==>
            LexLess(t1, t2) || (t1 == t2 && (LexLess(u1, u2) || (u1 == u2 && LexLess(s1, s2))))
  {
    LexIrreflexive(dash);
    LexIrreflexive(ext);
    LexConcat(s1, ext, s2, ext);
    LexConcat(dash, s1 + ext, dash, s2 + ext);
    LexConcat(u1, dash + (s1 + ext), u2, dash + (s2 + ext));
    LexConcat(dash, u1 + (dash + (s1 + ext)), dash, u2 + (dash + (s2 + ext)));
    LexConcat(t1, dash + (u1 + (dash + (s1 + ext))), t2, dash + (u2 + (dash + (s2 + ext))));
  }

  /** A text that stands for a number, in the order of numbers. */
  predicate Tells(s1: string, s2: string, n1: nat, n2: nat) {
    |s1| == |s2| && (LexLess(s1, s2) <==> n1 < n2) && (s1 == s2 <==> n1 == n2)
  }

  lemma NumbersOrder(t1: string, u1: string, s1: string, t2: string, u2: string, s2: string,
                     n1: nat, n2: nat, k1: nat, k2: nat, dash: string, ext: string)
    requires Tells(t1, t2, n1, n2) && Tells(s1, s2, k1, k2) && |u1| == |u2|
    ensures LexLess(Joined(t1, u1, s1, dash, ext), Joined(t2, u2, s2, dash, ext)) <==>
            n1 < n2 || (n1 == n2 && (LexLess(u1, u2) || (u1 == u2 && k1 < k2)))
  {
    JoinedOrder(t1, u1, s1, t2, u2, s2, dash, ext);
  }

  lemma PaddedTells(n: nat, m: nat, w: nat)
    requires n < Pow10(w) && m < Pow10(w)
    ensures Tells(Padded(n, w), Padded(m, w), n, m)
  {
    PaddedOrder(n, m, w);
  }

  /** Sorting the names sorts the batches by time, then task, then sequence number. */
  lemma NameOrder(t1: nat, u1: string, k1: nat, t2: nat, u2: string, k2: nat)
    requires t1 < Pow10(20) && t2 < Pow10(20) && k1 < Pow10(6) && k2 < Pow10(6)
    requires IsUuid(u1) && IsUuid(u2)
    ensures LexLess(Name(t1, u1, k1), Name(t2, u2, k2)) <==>
            t1 < t2 || (t1 == t2 && (LexLess(u1, u2) || (u1 == u2 && k1 < k2)))
  {
    PaddedTells(t1, t2, 20);
    PaddedTells(k1, k2, 6);
    NumbersOrder(Padded(t1, 20), u1, Padded(k1, 6), Padded(t2, 20), u2, Padded(k2, 6), t1, t2, k1, k2, "-", ".json");
  }

  lemma NameInjective(t1: nat, u1: string, k1: nat, t2: nat, u2: string, k2: nat)
    requires t1 < Pow10(20) && t2 < Pow10(20) && k1 < Pow10(6) && k2 < Pow10(6)
    requires IsUuid(u1) && IsUuid(u2)
    requires Name(t1, u1, k1) == Name(t2, u2, k2)
    ensures t1 == t2 && u1 == u2 && k1 == k2
  {
    NameOrder(t1, u1, k1, t2, u2, k2);
    NameOrder(t2, u2, k2, t1, u1, k1);
    LexIrreflexive(Name(t1, u1, k1));
    LexTotal(u1, u2);
  }

  predicate OccursAt(s: string, needle: string, i: int) {
    0 <= i <= |s| - |needle| && s[i..i + |needle|] == needle
  }

  /** `strings.Contains`. */
  predicate Contains(s: string, needle: string) {
    exists i :: 0 <= i <= |s| && OccursAt(s, needle, i)
  }

  function Needle(task: string): string { "-" + task + "-" }

  /** The substring test matches a batch's file exactly when the batch belongs to that task: task ids
      contain dashes themselves, but no other stretch of a name lines up with all six of them. */
  lemma NeedleMatchesTask(time: nat, task: string, seqNo: nat, other: string)
    requires time < Pow10(20) && seqNo < Pow10(6) && IsUuid(task) && IsUuid(other)
    ensures Contains(Name(time, task, seqNo), Needle(other)) <==> task == other
  {
    NameCharacters(time, task, seqNo);
    NeedleAligns(Name(time, task, seqNo), task, other);
  }

  lemma NeedleAligns(n: string, task: string, other: string)
    requires IsUuid(task) && IsUuid(other) && |n| == 69 && n[21..57] == task && n[20] == '-' && n[57] == '-'
    requires forall k :: 0 <= k < 69 && n[k] == '-' ==> k == 20 || k == 57 || (21 <= k < 57 && DashAt(k - 21))
    ensures Contains(n, Needle(other)) <==> task == other
  {
    var x := Needle(other);
    if task == other {
      assert n[20..58] == x;
      assert OccursAt(n, x, 20);
    }
    if Contains(n, x) {
      var i :| 0 <= i <= |n| && OccursAt(n, x, i);
      OnlyOneAlignment(n, task, other, i);
    }
  }

  lemma OnlyOneAlignment(n: string, task: string, other: string, i: nat)
    requires IsUuid(task) && IsUuid(other)
    requires |n| == 69 && n[21..57] == task
    requires forall k :: 0 <= k < 69 && n[k] == '-' ==> k == 20 || k == 57 || (21 <= k < 57 && DashAt(k - 21))
    requires OccursAt(n, Needle(other), i)
    ensures task == other
  {
    var x := Needle(other);
    assert |x| == 38 && x[0] == '-' && x[37] == '-';
    assert n[i] == n[i..i + 38][0] && n[i + 37] == n[i..i + 38][37];
    assert i == 20;
    forall k | 0 <= k < 36 ensures task[k] == other[k] {
      assert other[k] == x[k + 1] && x[k + 1] == n[20..58][k + 1] && n[20..58][k + 1] == n[21 + k];
      assert n[21 + k] == n[21..57][k];
    }
  }

  lemma NameCharacters(time: nat, task: string, seqNo: nat)
    requires time < Pow10(20) && seqNo < Pow10(6) && IsUuid(task)
    ensures
      var n := Name(time, task, seqNo);
      && |n| == 69 && n[21..57] == task
      && n[20] == '-' && n[57] == '-'
      && (forall i :: 0 <= i < 69 && n[i] == '-' ==> i == 20 || i == 57 || (21 <= i < 57 && DashAt(i - 21)))
  {
    JoinedCharacters(Padded(time, 20), task, Padded(seqNo, 6), Name(time, task, seqNo));
  }

  lemma JoinedCharacters(time: string, task: string, seqNo: string, n: string)
    requires n == Joined(time, task, seqNo, "-", ".json") && |time| == 20 && |seqNo| == 6 && IsUuid(task)
    requires '-' !in time && '-' !in seqNo
    ensures |n| == 69 && n[21..57] == task && n[20] == '-' && n[57] == '-'
    ensures forall i :: 0 <= i < 69 && n[i] == '-' ==> i == 20 || i == 57 || (21 <= i < 57 && DashAt(i - 21))
  {
    assert forall i :: 0 <= i < 20 ==> n[i] == time[i];
    assert forall i :: 21 <= i < 57 ==> n[i] == task[i - 21];
    assert forall i :: 58 <= i < 64 ==> n[i] == seqNo[i - 58];
    assert n[64..] == ".json";
    assert forall i :: 64 <= i < 69 ==> n[i] == n[64..][i - 64];
  }
}
