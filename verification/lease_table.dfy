/** The task table: one row per task, and the statements the store runs against it.
    Each function is one SQL UPDATE: where its WHERE clause does not match, the table is unchanged. */
module LeaseTable {
  import opened Options

  type TaskId = nat
  type WorkerId = nat
  type RunId = nat

  /** Lease tokens are random; what matters is which lease issued one. `Issued(n)` is the token of
      the n-th lease ever made, `Unissued` a value no lease ever made. */
  datatype Token = Issued(n: nat) | Unissued(value: nat)

  datatype Status = Pending | Leased | Running | Done | Failed | Cancelled

  /** `expiredNote` says whether the error text carries the reaper's "[lease expired]" note. */
  datatype Row = Row(run: RunId, status: Status, worker: Option<WorkerId>, token: Option<Token>,
                     expires: Option<int>, attempts: nat, maxAttempts: nat, expiredNote: bool)
  {
    predicate Live() { status.Leased? || status.Running? }

    predicate Terminal() { status.Done? || status.Failed? || status.Cancelled? }

    /** The WHERE clause of the gateway's load check. */
    predicate HeldBy(w: WorkerId, tok: Token) {
      Live() && worker == Some(w) && token == Some(tok)
    }

    predicate Expired(now: int) {
      Live() && expires.Some? && expires.value < now
    }

    /** A row nobody holds: pending again, or failed when `spent`. */
    function Requeued(spent: bool, note: bool): Row {
      this.(status := if spent then Failed else Pending, worker := None, token := None, expires := None,
            expiredNote := note)
    }

    function Held(st: Status, w: WorkerId, tok: Token, until: int): Row {
      this.(status := st, worker := Some(w), token := Some(tok), expires := Some(until))
    }

    /** Nothing about the task has changed, except that its worker's row may be gone. */
    predicate SameAs(r: Row) { this.(worker := r.worker) == r && (worker == r.worker || worker.None?) }

    /** The WHERE clause of ReadoptTask. */
    predicate Reclaimable() {
      status.Pending? && token.None? && expiredNote
    }
  }

  type Table = map<TaskId, Row>

  function InsertTask(tb: Table, t: TaskId, run: RunId, maxAttempts: nat): Table {
    tb[t := Row(run, Pending, None, None, None, 0, maxAttempts, false)]
  }

  predicate Leasable(tb: Table, running: set<RunId>, t: TaskId) {
    t in tb && tb[t].status.Pending? && tb[t].run in running
  }

  function LeaseTask(tb: Table, t: TaskId, w: WorkerId, tok: Token, until: int): Table
    requires t in tb
  {
    tb[t := tb[t].Held(Leased, w, tok, until).(attempts := tb[t].attempts + 1)]
  }

  predicate Extendable(tb: Table, t: TaskId, w: WorkerId) {
    t in tb && tb[t].Live() && tb[t].worker == Some(w)
  }

  /** Heartbeats prove ownership by worker identity. */
  function ExtendLeaseForWorker(tb: Table, t: TaskId, w: WorkerId, until: int): Table {
    if Extendable(tb, t, w) then tb[t := tb[t].(status := Running, expires := Some(until))] else tb
  }

  predicate Reclaims(tb: Table, t: TaskId) {
    t in tb && tb[t].Reclaimable()
  }

  function ReadoptTask(tb: Table, t: TaskId, w: WorkerId, tok: Token, until: int): Table {
    if Reclaims(tb, t) then tb[t := tb[t].Held(Running, w, tok, until)] else tb
  }

  function ReapLease(tb: Table, t: TaskId, now: int): Table {
    if t in tb && tb[t].Expired(now)
    then tb[t := tb[t].Requeued(tb[t].attempts >= tb[t].maxAttempts, true)] else tb
  }

  function ReleaseWorkerLeases(tb: Table, w: WorkerId): Table {
    map t | t in tb :: if Extendable(tb, t, w) then tb[t].Requeued(false, tb[t].expiredNote) else tb[t]
  }

  function CancelRunTasks(tb: Table, run: RunId): Table {
    map t | t in tb :: if tb[t].run == run && !tb[t].Terminal() then tb[t].(status := Cancelled) else tb[t]
  }

  /** Deleting a worker's row clears it from every task it ran, whatever their status; the lease stays. */
  function DeleteWorker(tb: Table, w: WorkerId): Table {
    map t | t in tb :: if tb[t].worker == Some(w) then tb[t].(worker := None) else tb[t]
  }

  function ExtendLease(tb: Table, t: TaskId, tok: Token, until: int): Table {
    if t in tb && tb[t].Live() && tb[t].token == Some(tok)
    then tb[t := tb[t].(status := Running, expires := Some(until))] else tb
  }

  function CompleteTask(tb: Table, t: TaskId, tok: Token): Table {
    if t in tb && tb[t].Live() && tb[t].token == Some(tok) then tb[t := tb[t].(status := Done)] else tb
  }

  /** The WHERE clause names the token only, not the status. */
  function FailTask(tb: Table, t: TaskId, tok: Token, note: bool): Table {
    if t in tb && tb[t].token == Some(tok)
    then tb[t := tb[t].Requeued(tb[t].attempts >= tb[t].maxAttempts, note)] else tb
  }

  function FailTaskPermanently(tb: Table, t: TaskId, tok: Token, note: bool): Table {
    if t in tb && tb[t].token == Some(tok) then tb[t := tb[t].Requeued(true, note)] else tb
  }
}
