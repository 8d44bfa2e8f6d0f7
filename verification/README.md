# A verified model of PinkGlasses' scan orchestration

PinkGlasses runs scans: it leases tasks to workers over an unreliable network, folds what they report into
summaries, and plans the next tasks from those summaries until a run is complete. This project models that
core in Dafny and proves what it keeps over every run, for all inputs.

- **Leases** (`lease_table.dfy`, `lease_protocol.dfy`, `lease_effects.dfy`, `lease_kept.dfy`, `gateway.dfy`). The task table with one
  function per SQL statement, and every interleaving of leasing, heartbeats, reaping, handing back, releasing,
  cancelling, deleting workers, loading and closing. Handling a result is two steps, the load check and what it does with the task
  afterwards, because other statements may run in between.
- **Delivery** (`spool_names.dfy`, `spool.dfy`, `delivery.dfy`, `delivery_answers.dfy`, `replay.dfy`, `summary.dfy`,
  `end_to_end.dfy`). A worker's batches, sent directly or through its spool directory while replays run; the
  summary ingestion makes of a batch and how the gateway folds batches together; and both at once.
- **Planning** (`planner*.dfy`). `planner.dfy` says what a tick adds as functions of the tasks and the database;
  `planner_steps.dfy` carries it out in place on the task table with the loops and caches of the code, and is
  proved equal. `planner_facts.dfy`, `planner_tick.dfy`, `planner_settles.dfy` and `planner_runs.dfy` prove what a
  tick does, what a second one does, and what holds over whole runs in which workers change statuses and
  results at will between ticks. `planner_initial.dfy` starts a run and `planner_start.dfy` says exactly with
  what, `planner_auth.dfy` tells from the company's rows who is authorized, `planner_wave.dfy` says exactly which probes
  and web stages are planned, and `planner_shape.dfy` what every task of a run looks like.
- **Addresses and scope** (`net_addr.dfy`, `guard.dfy`, `targets.dfy`). The in-place increment, CIDR expansion, the
  private ranges, and folding target rows.
- **Smaller machines.** Single-flight name lookup (`asn.dfy`), sweep budgets (`budget.dfy`), finding presence and
  its events (`presence.dfy`), the in-process login limiter (`login_limiter.dfy`), fleets and their containers
  (`fleet.dfy`), leasing with a brute-force cap (`dispatch.dfy`), and the container log (`docker_log.dfy`).

`dafny verify dfyconfig.toml` checks everything.

Time, random tokens, what the network answers, how texts parse as addresses, prefixes and URLs, and what the
database holds when a tick reads it are parameters, so each theorem is about all of them.

## Where the code and its promises differ

Each of these is proved: by a concrete run, by the exact condition under which the promise holds, or by both.

- Handing a task back does not ask whether the token is the worker's own and the latest, so accepted batches can
  go back to an older lease (`LeaseProtocol.StaleHandbackGoesBack`, `LeaseProtocol.HandbackDecidesNextBatch`,
  `LeaseProtocol.OrderedExactlyWhenHandbacksAre`).
- Recording a failure does not look at the task's status. One that arrives late puts a cancelled task back in the
  queue (`LeaseProtocol.LateFailureRevives`), or turns a cancelled task (`LeaseProtocol.LateGiveUpFailsCancelled`) or
  a done one (`LeaseProtocol.LateFailureFailsDone`) into a failed one, whose addresses the planner no longer reads. A
  done task that is queued again is leased again and accepts batches (`LeaseProtocol.RevivedAcceptsAgain`).
  Finished tasks stay as they are exactly without such a failure
  (`LeaseProtocol.FinishedExactlyWithoutLateVerdict`), and stay finished exactly without one that has an attempt
  left (`LeaseProtocol.TerminalExactlyWithoutLateFailure`).
- A worker that shuts down queues its tasks again without looking at their attempts, so a task can be leased more
  often than its maximum (`LeaseProtocol.ReleasePassesMaximum`); exactly when one is released on its last attempt
  (`LeaseProtocol.WithinAttemptsExactly`, `LeaseProtocol.SpentReleaseAllowsMore`).
- A CIDR target is tested as written but expanded from its masked base, so one with host bits set can expand
  into an internal range (`Guard.HostBitsHideAnInternalBlock`, `PlannerInitial.BlockStartDecides`).
- Expanding the whole IPv4 space starts over instead of ending; the hosts are distinct exactly when the block is
  another one or the cap does not exceed the space (`NetAddr.DistinctExactly`). An IPv6 block that reaches into the
  IPv4-mapped addresses ends there (`NetAddr.InBlockAt`).
- Where a spool write fails, a batch is posted past an earlier one still on disk (`Delivery.FailedWriteOvertakes`);
  exactly when a file of its task has not been heard (`Delivery.FailedWriteExactly`, and over whole runs
  `Delivery.InOrderExactly`).
- Batches dropped unheard, from a full spool or because a file cannot be read, are gone for good, and any later one
  of the task overtakes them (`Delivery.FullSpoolOvertakes`, `Delivery.UnreadableOvertakes`,
  `Delivery.LostIsOvertaken`).
- A probe of port zero is stored without a port, which the query for probed endpoints cannot read: from then on
  every tick fails and the run never completes (`PlannerRuns.UnreadableNeverFinishes`).
- Ticks are called idempotent; that holds exactly when every reported service has an address, which ingestion
  sees to (`PlannerSettles.SecondTickAddsNothing`, `PlannerRuns.IngestedStaysAddressed`).
- A worker can hold more brute-force tasks than its cap, because counting the room and leasing are separate
  statements and handing back asks for no room. It does exactly when one is handed back to it while it is at the cap,
  or a call takes more than the room then left (`Dispatch.CapKeptExactly`). The latter needs a task handed back, or
  another call of the same worker taking one, between the call's count and its lease (`Dispatch.UndisturbedKeepsCap`).
  Runs that pass the cap: `Dispatch.ReadoptPassesCap`, `Dispatch.HandbackBetweenPassesCap`,
  `Dispatch.TwoCallsPassCap`.
- The ceiling on runs that hold containers counts the rows that are up, so containers whose removal failed are not
  counted and the ceiling can be passed (`Fleet.LeftoversPassCeiling`, `Fleet.ContainersWithinExactly`); it holds while
  none are left behind (`Fleet.TidyKeepsCeiling`).
- The guard's private blocks do not cover IPv4 addresses written as IPv6 ones, which the planner's own test does
  (`Guard.MappedInternalIsAllowed`, `Guard.GuardAndPlannerDifferExactly`).
- A finding that is new on a host covered before is recorded as returned, though it was never gone
  (`Presence.NewOnACoveredHostReturns`, `Presence.ReturnsFollowGoneExactly`).
- An unframed container log is returned as it is only from eight bytes on; a shorter one is lost
  (`DockerLog.PlainTextKeptExactly`).

## Model

| member | source | states |
|---|---|---|
| `LeaseProtocol.StepKeepsInvariant` | internal/store/task.go:106-362 | inserting, leasing, extending, handing back, reaping, releasing, cancelling, deleting a worker, loading and closing each keep every row consistent: a live row has a lease that runs out, a queued or failed one none, and attempts count the leases made |
| `LeaseProtocol.InvariantAlways` | internal/store/task.go:106-400 | so it holds after every interleaving of any length |
| `LeaseProtocol.LeasesBounded` | internal/store/task.go:327-362 | a task is leased at most its maximum number of attempts plus once for each time it was released |
| `LeaseProtocol.WithinAttemptsExactly` | internal/store/worker.go:260-269 | over every run no task is leased more often than its maximum, and every queued one has an attempt left, exactly when no worker that shuts down holds a task on its last attempt |
| `LeaseProtocol.SpentReleaseAllowsMore` | internal/store/worker.go:260-269 | after such a release the task can be leased once more than its maximum |
| `LeaseProtocol.ReleasePassesMaximum` | internal/store/worker.go:260-269 | a run with two leases of a task that allows one |
| `LeaseProtocol.HandbackDecidesNextBatch` | internal/store/task.go:285-299 | the batch a handback lets in is on its sender's own lease and no older one than before exactly when the handback goes to such a lease |
| `LeaseProtocol.StepOrderedIff` | internal/store/task.go:285-299 | from a state in which every batch accepted, and any that could be accepted next, is in lease order, a step keeps that exactly when it is not a handback out of order |
| `LeaseProtocol.OrderedExactlyWhenHandbacksAre` | internal/agentapi/gateway.go:702-734 | over every run, batches are accepted in lease order at every point, including whatever could be presented next, exactly when every handback goes to its worker's own lease and none older than one already heard from |
| `LeaseProtocol.StaleHandbackGoesBack` | internal/store/task.go:285-299 | a run in which a batch of the first lease is accepted after one of the second |
| `LeaseProtocol.StepFinishedIff` | internal/store/task.go:265-311 | a step leaves every done, failed or cancelled task as it is, but for a deleted worker, exactly when it is not a failure recorded for one that still carries its token |
| `LeaseProtocol.FinishedExactlyWithoutLateVerdict` | internal/agentapi/gateway.go:761-782 | over every run, finished tasks stay as they are exactly when no such failure arrives |
| `LeaseProtocol.StepTerminalIff` | internal/store/task.go:265-277 | a step leaves every finished task finished, one way or another, exactly when it is not such a failure with an attempt left |
| `LeaseProtocol.TerminalExactlyWithoutLateFailure` | internal/agentapi/gateway.go:761-782 | over every run, finished tasks stay finished exactly when no such failure arrives |
| `LeaseProtocol.FinishedAcceptsNothing` | internal/agentapi/gateway.go:820-827 | without late failures a finished task never accepts another batch, over any further run |
| `LeaseProtocol.LateFailureRevives` | internal/store/task.go:265-277 | a run in which a cancelled task is pending again |
| `LeaseProtocol.LateGiveUpFailsCancelled` | internal/store/task.go:304-311 | a run in which a cancelled task becomes a failed one |
| `LeaseProtocol.LateFailureFailsDone` | internal/store/task.go:265-277 | a run in which a done task becomes a failed one |
| `LeaseProtocol.RevivedAcceptsAgain` | internal/store/task.go:265-277 | a run in which a done task is queued again, leased again and a batch of it accepted |
| `LeaseProtocol.DoneIsFinal` | internal/store/task.go:239-311 | where workers give one verdict per lease, a done task is never changed again, late failures included |
| `LeaseProtocol.StepKeepsDone` | internal/store/task.go:239-311 | one step of that: every done task was closed by a request that completed it, and stays as it is |
| `LeaseEffects.StatusChangesExactly` | internal/store/task.go:106-362 | status by status, the events that get a task there: an attempt that fails, by its worker's report or by its lease running out, is repeated exactly while fewer leases were made than the task may have, and fails it otherwise; calling off, completing, taking and handing back likewise |
| `LeaseEffects.FailedAttemptIsRepeatedExactly` | internal/store/task.go:263-277 | a failure reported for a task at work, or its lease running out, leaves it queued exactly when it was leased less often than it may be, and failed otherwise, held by nobody |
| `LeaseEffects.HolderChangesExactly` | internal/store/task.go:106-362 | who holds a task, under which token and until when, after every step |
| `LeaseEffects.RestChangesExactly` | internal/store/task.go:106-362 | run and maximum never change, attempts grow with leases alone, and the reaper's note comes and goes as the code sets it |
| `LeaseEffects.RowsComeFromInserts` | internal/store/task.go:32-56 | rows come from inserting, queued and untried |
| `LeaseEffects.RecordsExactly` | internal/agentapi/gateway.go:702-734 | a batch is accepted exactly when its worker holds the task under its token; leases and releases are recorded as they are made |
| `LeaseEffects.AnyTokenComes` | internal/agentapi/gateway.go:607-631 | workers may present any token, and requests are carried out at any later time |
| `LeaseEffects.EndsAreEarned` | internal/store/task.go:263-362 | over every run a failed task had as many leases as it may or was given up by its worker, a done one was reported done, and a cancelled one belongs to a run that was cancelled |
| `LeaseKept.StepKeepsLeaseExactly` | internal/store/task.go:217-235 | a step that does not end the lease takes a task from its worker exactly when it reaps it more than a lease's length after the last sign of life |
| `LeaseKept.HeartbeatsKeepLease` | internal/agentapi/gateway.go:608-618 | over every run, a worker heard from within each lease's length keeps its task under the same lease, neither retried nor given away |
| `Gateway.Channel.Heartbeat` | internal/agentapi/gateway.go:545-642 | what one heartbeat does to the table and to the set of leases reported lost, for a stopping worker, one that sends leases and one that sends only task ids |
| `Gateway.NamedAre` | internal/agentapi/gateway.go:599-606 | a heartbeat is about the leases it lists, or, where it lists none, about the ids of running tasks |
| `Gateway.BeatDoes` | internal/agentapi/gateway.go:607-631 | every task named and still held is extended under its lease; one that the reaper queued and that is named with a token is the worker's again; no other row changes |
| `Gateway.LostExactly` | internal/agentapi/gateway.go:632-643 | reported lost are the tasks named that were neither the worker's nor could be handed back on the spot |
| `Gateway.LostMeansNotHeld` | internal/agentapi/gateway.go:632-643 | where no task is named twice, those are the tasks named that the worker does not hold afterwards |
| `Gateway.BeatLeavesOthers` | internal/agentapi/gateway.go:608-641 | a heartbeat never changes a finished task or one another worker holds |
| `Gateway.BeatIsProtocolSteps` | internal/agentapi/gateway.go:608-641 | a heartbeat is a sequence of protocol steps, so the theorems over all interleavings cover it |
| `SpoolNames.NameOrder` | internal/scanner/spool.go:64-83 | string order of file names is the order by time, then task, then sequence number, for all times below 10^20, task ids and numbers below 10^6 |
| `SpoolNames.NameInjective` | internal/scanner/spool.go:64-83 | different batches have different names |
| `SpoolNames.NeedleMatchesTask` | internal/scanner/spool.go:92-103 | the substring test matches a file exactly when it is of that task |
| `Spool.Spool.ListPending` | internal/scanner/spool.go:106-123 | all names, in sorted order |
| `Spool.Spool.CheckPending` | internal/scanner/spool.go:92-103 | true exactly when some file name contains the task's needle |
| `Spool.Spool.Trim` | internal/scanner/spool.go:126-136 | at the cap, the oldest files go until there is room for one |
| `Spool.TrimmedKeepsNewest` | internal/scanner/spool.go:126-136 | below the cap nothing goes; at it one file less than the cap stays, and whatever goes sorts before whatever stays |
| `Spool.NoTaskNothingPending` | internal/scanner/spool.go:92-95 | nothing is pending for an empty task id |
| `Spool.Spool.Put` | internal/scanner/spool.go:64-83 | the trimmed directory with the new file |
| `Spool.Spool.Replay` | internal/scanner/spool.go:150-196 | what is sent and what is left for every sequence of answers: files go out oldest first, an unreachable gateway stops it, answered files are removed, and unreadable ones go without being sent |
| `Delivery.PendingMeansOnDisk` | internal/scanner/spool.go:92-103 | in every reachable state the pending test answers exactly whether the task has a batch on disk |
| `Delivery.StepKeepsInvariant` | internal/scanner/agent.go:522-560 | every step that drops no unheard batch, failed writes included, keeps each batch an execution is past settled or on disk once, in order, with a replay at the oldest |
| `Delivery.StepInOrderIff` | internal/scanner/agent.go:522-560 | a step sends a batch before an earlier one of its task is settled exactly when it posts it past a file of the task not heard yet; replays never do |
| `Delivery.InOrderExactly` | internal/scanner/agent.go:522-560 | over every run that drops no unheard batch, none is overtaken exactly when none is posted past such a file |
| `Delivery.FailedWriteExactly` | internal/scanner/agent.go:522-540 | after a write that fails, the post made instead keeps the order exactly when every file of the task has been heard |
| `Delivery.NoOvertaking` | internal/scanner/agent.go:522-560 | in no interleaving of executions and replays, with writes succeeding below the cap and files readable, is a batch sent before every earlier one of its task was accepted or declined |
| `Delivery.ClosedMeansAllHeard` | internal/scanner/agent.go:489-560 | an accepted batch, so also the final one, means every earlier batch was accepted or declined before |
| `Delivery.DiskReached` | internal/scanner/agent.go:540-560 | the state the next row starts from is reachable without any failure |
| `Delivery.LostIsOvertaken` | internal/scanner/spool.go:126-136 | a batch once dropped unheard is never sent again, and the order is gone as soon as any later one of its task is sent, over any run |
| `Delivery.LosesSome` | internal/scanner/spool.go:126-174 | a step that trims an unheard file, drops one as unreadable or fails to write a batch does lose one |
| `Delivery.FullReached` | internal/scanner/spool.go:126-136 | a full spool is reachable without any failure |
| `Delivery.FullSpoolOvertakes` | internal/scanner/spool.go:126-136 | from there one more batch loses the first, and the next replay delivers a later one without it |
| `Delivery.UnreadableOvertakes` | internal/scanner/spool.go:168-178 | a file dropped as unreadable lets the second batch overtake the first and close the task |
| `Delivery.FailedWriteOvertakes` | internal/scanner/agent.go:522-540 | from it, a failing spool write lets the second batch overtake the first and close the task |
| `DeliveryAnswers.DeclinedIsFinal` | internal/scanner/agent.go:541-549 | over every run, failures and losses included, a batch the gateway declined is never sent again and is not on disk |
| `DeliveryAnswers.AnsweredIsFinal` | internal/scanner/agent.go:540-549 | nor is any batch sent again that an answer came back for, to a post or to a replay |
| `DeliveryAnswers.PostSpoolsExactly` | internal/scanner/agent.go:539-562 | after a direct post the batch goes to the spool exactly when the gateway could not be reached; otherwise the execution goes on |
| `DeliveryAnswers.UnansweredStays` | internal/scanner/agent.go:550-562 | a batch that was not answered is about to be spooled, or its file stays and the replay ends |
| `DeliveryAnswers.CheckQueuesExactly` | internal/scanner/agent.go:528-538 | a batch is spooled untried exactly when an earlier one of its task is on disk |
| `DeliveryAnswers.AnyAnswer` | internal/scanner/agent.go:565-594 | an answer decides the verdict; without one the batch may have landed |
| `DeliveryAnswers.WriteDoes` | internal/scanner/spool.go:64-83 | a write makes room where the spool is full, whether it then succeeds or not, and adds its batch when it does |
| `DeliveryAnswers.SpoolStaysBounded` | internal/scanner/spool.go:126-136 | over every run the spool never holds more files than its cap |
| `DeliveryAnswers.NothingSpooledWhileReached` | internal/scanner/agent.go:521-562 | while the gateway can be reached nothing is ever spooled, and every batch is sent once, in its turn |
| `Replay.ReplayIsSteps` | internal/scanner/spool.go:150-196 | a whole replay leaves and sends exactly what its single steps do, so the theorems over interleavings cover it |
| `Summary.MergeOfSummaries` | internal/agentapi/gateway.go:959-991 | merging the summaries of two batches is summarizing both together, order included |
| `Summary.CuttingMakesNoDifference` | internal/agentapi/gateway.go:752-759 | however observations are cut into batches, the folded summary is that of the whole list |
| `Summary.ReplayChangesNothing` | internal/agentapi/gateway.go:959-1009 | ingesting observations again changes no list of the summary |
| `Summary.AtLeastOnceInTurn` | internal/agentapi/gateway.go:959-1009 | batches accepted at least once, each no earlier than its predecessor, fold to the summary of all of them |
| `Summary.Process` | internal/ingest/ingest.go:92-247 | the loop with its seen-maps computes the summary: each domain, address, service and URL once, in the order first reported |
| `Summary.SummaryListsExactly` | internal/ingest/ingest.go:120-351 | told from the observations alone and each once: the domains of subdomains; the values of A and AAAA records and the addresses reported; address and port of every service that has an address; and a URL for every web endpoint, https on ports 443 and 8443 |
| `Summary.AddressesListed` | internal/ingest/ingest.go:147-186 | an address is listed exactly when an A or AAAA record has it as its value or it was reported itself |
| `Summary.DomainsListed` | internal/ingest/ingest.go:127-134 | a domain is listed exactly when a subdomain observation names it |
| `Summary.ServicesListed` | internal/ingest/ingest.go:188-208 | a service is listed exactly when one with an address was reported on that address and port |
| `Summary.URLsListed` | internal/ingest/ingest.go:342-351 | a URL is listed exactly when it is that of a web endpoint reported |
| `Summary.ServicesHaveAddresses` | internal/ingest/ingest.go:104-117 | no summary lists a service without an address |
| `Lists.DistinctIsFirstSeen` | internal/ingest/ingest.go:99-102 | what each value once in order of first report means, without reference to the loop |
| `Summary.MergeStrings` | internal/agentapi/gateway.go:994-1009 | appends what is new, in order |
| `Summary.MergeTaskSummary` | internal/agentapi/gateway.go:959-991 | the loops over maps and slices compute the merge of all four lists |
| `Summary.Chunk` | internal/scanner/agent.go:489-511 | batches of at most 500 that put together are the observations, and a last one without any |
| `EndToEnd.AcceptedInTurn` | internal/scanner/agent.go:489-560 | the batches the gateway accepts of a task, repetitions and all, come in turn |
| `Summary.FoldedOntoEarlier` | internal/agentapi/gateway.go:959-991 | folding batches onto the summary of an earlier attempt gives the summary of its observations followed by theirs |
| `EndToEnd.SummaryArrivesWhole` | internal/agentapi/gateway.go:744-782 | over every run that drops no unheard batch and posts none past one on disk, once the last batch is accepted and none was declined, the stored summary is that of everything the worker observed, behind what earlier attempts did |
| `NetAddr.Inc` | internal/scopeguard/scopeguard.go:123-130 | the in-place carry computes the successor of the whole array |
| `NetAddr.SuccessorValue` | internal/scopeguard/scopeguard.go:123-130 | which is one more, modulo the number of addresses of that length |
| `NetAddr.HoldsIsRange` | internal/scopeguard/scopeguard.go:114-114 | the containment test by value: the range from the base on, of which IPv4-mapped addresses count only for a mapped block |
| `NetAddr.InBlockAt` | internal/scopeguard/scopeguard.go:114-114 | the k-th address from the base passes the test exactly until the block ends or the IPv4-mapped addresses begin, and always in the whole IPv4 space |
| `NetAddr.ExpandCIDRHosts` | internal/scopeguard/scopeguard.go:108-121 | the hosts from the masked base on, as many as the cap allows or the test lets through, for every prefix and cap |
| `NetAddr.HostsEnumerate` | internal/scopeguard/scopeguard.go:108-121 | the i-th host is the base plus i, and all pass the test |
| `NetAddr.DistinctExactly` | internal/scopeguard/scopeguard.go:108-121 | the hosts are pairwise different exactly when the block is not the whole IPv4 space or the cap does not exceed it |
| `Guard.InternalIsRanges` | internal/planner/planner.go:728-737 | the planner's test is membership in five ranges (RFC 1918 section 3, loopback, link-local) |
| `Guard.ExpandsInternalExactly` | internal/planner/planner.go:94-109 | the at most 4096 hosts of an IPv4 block contain an internal address exactly when its base is one |
| `Guard.CleanCIDRExpandsSafely` | internal/planner/planner.go:94-109 | so a block written with clear host bits that passes the test expands to no internal address |
| `Guard.HostBitsHideAnInternalBlock` | internal/planner/planner.go:728-737 | 11.0.0.0/7 passes and expands into 10.0.0.0/8 |
| `Guard.New` | internal/scopeguard/scopeguard.go:41-56 | the prefixes of the excluded targets that parse, in order |
| `Guard.DecisionsAre` | internal/scopeguard/scopeguard.go:70-94 | private ranges come before exclusions and exclusions before shared hosting |
| `Guard.ExcludedAnywhere` | internal/scopeguard/scopeguard.go:70-92 | with merged rows, an address is covered by an exclusion exactly when some row, in any group, excludes it |
| `Guard.GuardAndPlannerAgree` | internal/scopeguard/scopeguard.go:19-25 | for every address, the guard's blocks cover it exactly when the planner's test calls it internal and it is not IPv4-mapped, or it lies in 0.0.0.0/8 |
| `Guard.GuardAndPlannerDifferExactly` | internal/planner/planner.go:728-737 | the two tests differ exactly on the mapped internal addresses and on 0.0.0.0/8 |
| `Guard.MappedInternalIsAllowed` | internal/scopeguard/scopeguard.go:70-92 | the mapped form of 10.0.0.1 is allowed, 10.0.0.1 itself refused |
| `Targets.KeyNamesOne` | internal/domain/domain.go:142-142 | a key stands for one kind and value |
| `Targets.MergeTargets` | internal/domain/domain.go:138-160 | overwriting through the index map yields one row per key, in order of first appearance, each the row that decides |
| `Targets.WinnerIsFirst` | internal/domain/domain.go:138-160 | the row that speaks for a key is the first that excludes it, else the first that authorizes it, else the first |
| `Targets.MergedKeys` | internal/domain/domain.go:138-160 | the keys are those of the rows, once each, in order of first appearance |
| `Targets.MergedDecides` | internal/domain/domain.go:133-160 | a merged row is one of the rows, excluded exactly when any row of its key is, and otherwise authorized exactly when any is |
| `Targets.MergedCovers` | internal/domain/domain.go:138-160 | no key is lost: every row has a merged row of its key |
| `Targets.OrderDoesNotDecide` | internal/domain/domain.go:133-137 | these decisions do not depend on the order of rows |
| `Targets.MergeIdempotent` | internal/domain/domain.go:138-160 | merging again changes nothing |
| `PlannerFacts.FoundIs` | internal/planner/planner.go:260-284 | the addresses found are those of all done discovery tasks, each with the run targets of all tasks that report it |
| `PlannerFacts.StoredOriginsAre` | internal/store/task.go:57-66 | stored are the run targets given other than nil, each once, in the order they were first given |
| `PlannerFacts.BatchOriginsAre` | internal/planner/planner.go:397-403 | a batch serves exactly the run targets of its addresses |
| `PlannerFacts.BatchesPartition` | internal/planner/planner.go:386-410 | batches of at most 64 put together are the sorted addresses, and the skip for a batch without run targets is never taken |
| `PlannerFacts.ScanSpecsPartition` | internal/planner/planner.go:386-413 | a tick's batches hold exactly the admitted addresses, each once, on the run's ports or the CDN's |
| `PlannerTick.TickGrows` | internal/planner/planner.go:164-195 | a tick only appends pending tasks that send traffic |
| `PlannerTick.ProbeCovers` | internal/planner/planner.go:446-496 | after probing is planned every service of a done or failed port scan has a probe |
| `PlannerTick.PostProbeSpecsWeb` | internal/planner/planner.go:521-597 | web stages are planned exactly when some probe reported a web endpoint, and only web stages |
| `PlannerTick.TickCoversAddresses` | internal/planner/planner.go:260-425 | after any tick that does not fail, every address found is queued, without an authorized run target, or refused |
| `PlannerTick.TickCoversServices` | internal/planner/planner.go:446-496 | and every service of a finished port scan has a probe |
| `PlannerTick.FinishedMeansCovered` | internal/planner/planner.go:181-195 | a run completes only with nothing outstanding, every address accounted for, every service probed and the web stages planned if there is anything for them |
| `PlannerAuth.PermittedExactlySanctioned` | internal/planner/planner.go:742-761 | the planner permits exactly the run targets whose value the company authorizes and does not exclude |
| `PlannerAuth.ValueAuthorizedExactly` | internal/planner/planner.go:747-750 | a value is authorized exactly when, of the kind that decides, some row authorizes it and none excludes it; where it is listed under several kinds, the one listed last for the first time decides |
| `PlannerAuth.OneKindAuthorizedExactly` | internal/planner/planner.go:747-750 | for a value listed under one kind: some row authorizes it, by whom and when, and none excludes it |
| `PlannerAuth.SanctionedHasRow` | internal/planner/planner.go:742-761 | a permitted run target has a row that authorizes it, and no row that excludes that target |
| `PlannerTick.AllowedExactlyScannable` | internal/scopeguard/scopeguard.go:70-92 | the guard allows an address exactly when it parses, is in no private block unless those are opened, and no row excludes it |
| `PlannerTick.TickAdmitsOnlySanctioned` | internal/planner/planner.go:332-413 | every address a tick queues was found for an authorized run target, passed the guard, was not queued before, and is on the CDN's ports exactly when it is a CDN's |
| `PlannerSettles.NoNewScans` | internal/planner/planner.go:301-376 | with every found address accounted for, no port scan is added |
| `PlannerSettles.SecondTickAddsNothing` | internal/planner/planner.go:161-195 | a second tick over an unchanged state adds nothing and decides the same exactly when every service has an address; with an unreadable probe it fails |
| `PlannerSettles.FailedTickFailsAgain` | internal/planner/planner.go:164-195 | where every service has an address, a tick that failed halfway fails again at the same place and adds nothing more |
| `PlannerRuns.TickKeepsPools` | internal/planner/planner.go:229-241 | a tick keeps every task on the pool of its class, and adds none where the run has no exit pool |
| `PlannerRuns.ScanKeepsOnce` | internal/planner/planner.go:301-335 | queueing keeps every address planned by ticks in one port scan, once |
| `PlannerRuns.ProbeKeepsOnce` | internal/planner/planner.go:476-484 | probing keeps every endpoint probed at most once |
| `PlannerRuns.RunKeepsInvariant` | internal/planner/planner.go:164-195 | over every run, whatever workers report, however scope and parameters change and also when the run's pool is removed, tasks are on the pool of their class, no address is queued that any port scan has, and no endpoint is probed twice |
| `PlannerRuns.StepDoes` | internal/planner/planner.go:164-195 | work on a task changes its status and result alone, and a tick of a finished run changes nothing |
| `PlannerRuns.PooledExactlyUntilRemoved` | internal/store/fleet.go:216-229 | over every run all tasks have a pool exactly when the run's own pool was not removed or no task needs it |
| `PlannerRuns.RunKeepsTarget` | internal/store/task.go:32-73 | a task's stage and target never change |
| `PlannerRuns.ScansWereAdmitted` | internal/planner/planner.go:332-413 | every address of every port scan a run ever planned was admitted by one of its ticks: authorized, let through, new, on the right ports |
| `PlannerRuns.OneWebWave` | internal/planner/planner.go:521-524 | once a run has web stages no later tick adds any |
| `PlannerRuns.PortZeroIsUnreadable` | internal/store/task.go:692-710 | a service on port zero leads to a probe the planner cannot read back |
| `PlannerRuns.UnreadableNeverFinishes` | internal/planner/planner.go:446-460 | with such a probe the run never completes, whatever happens |
| `PlannerRuns.ReadableFinishes` | internal/planner/planner.go:181-195 | without one, a run with nothing outstanding and nothing to add completes at the next tick |
| `PlannerRuns.IngestedStaysAddressed` | internal/ingest/ingest.go:104-117 | in runs whose results come from ingestion every service has an address |
| `PlannerShape.RunKeepsShape` | internal/planner/planner.go:164-195 | over every run each task has the priority and needs of its stage and is attributed to targets of the run only |
| `PlannerShape.StartedRunsServeTheirTargets` | internal/planner/planner.go:57-126 | so from PlanInitial on a run never does anything for a target it was not started for |
| `PlannerShape.WaveIsComplete` | internal/planner/planner.go:553-586 | every target of every web endpoint any probe reported gets every stage that is not switched off, for the probe's run target |
| `PlannerWave.TargetsForAre` | internal/planner/planner.go:604-650 | one target for each name that resolves to the address, up to the cap, with the live URL's scheme or http, the name, and the port unless it is the scheme's own; or the live URL itself where no name does |
| `PlannerWave.WaveIsExact` | internal/planner/planner.go:509-597 | stage by stage, a wave is one task for each target of each web endpoint reported, for the first target of its probe, if the stage is switched on, and none otherwise |
| `PlannerWave.WavePlannedExactly` | internal/planner/planner.go:521-597 | web stages are added exactly when there are none, every probe is over and some probe reported a web endpoint |
| `PlannerWave.ProbesOnlyReported` | internal/planner/planner.go:446-503 | nothing is probed but services that a done or failed port scan reports, for the first target of one that does |
| `PlannerWave.TickProbesAllReported` | internal/planner/planner.go:446-503 | after a tick that succeeds every such service has a probe |
| `PlannerWave.FinishedExactly` | internal/planner/planner.go:164-195 | a tick that succeeds finishes the run exactly when it has tasks and all are done, failed or cancelled |
| `PlannerWave.TickFailsExactly` | internal/planner/planner.go:164-258 | a tick fails exactly when the passive pool is missing, a probe cannot be read back, or anything is to be planned and there is no exit pool; without the passive pool it changes nothing |
| `PlannerSteps.MergeOrigins` | internal/planner/planner.go:699-711 | the second list appended without what is there already |
| `PlannerSteps.StoreOrigins` | internal/store/task.go:32-73 | run targets are stored once each and the nil id not at all |
| `PlannerSteps.RouteTasks` | internal/planner/planner.go:229-241 | every spec on the pool of its class, or an error where an active one has none |
| `PlannerSteps.AuthorizedTargets` | internal/planner/planner.go:742-761 | which run targets permit active scanning |
| `PlannerSteps.AnyOf` | internal/planner/planner.go:337-343 | whether any run target of an address permits it |
| `PlannerSteps.OriginsOf` | internal/planner/planner.go:397-401 | the run targets of a batch |
| `PlannerSteps.Batches` | internal/planner/planner.go:386-410 | cutting the sorted addresses into port scans |
| `PlannerSteps.WebTargetsOf` | internal/planner/planner.go:610-632 | one target per name up to the cap, or the address itself |
| `PlannerSteps.TaskTable.InsertTasks` | internal/store/task.go:32-73 | the specs appended as pending tasks with their stored run targets |
| `PlannerSteps.TaskTable.PlanTasks` | internal/planner/planner.go:411-424 | all specs routed and inserted, or none |
| `PlannerSteps.TaskTable.CollectFound` | internal/planner/planner.go:260-287 | the addresses found, stage by stage |
| `PlannerSteps.TaskTable.AlreadyScanned` | internal/store/task.go:666-688 | every address of every port scan, batched or single |
| `PlannerSteps.TaskTable.Sift` | internal/planner/planner.go:327-364 | the map iterated in any order splits into exactly the admitted addresses on the run's ports and on the CDN's |
| `PlannerSteps.TaskTable.ScanAddresses` | internal/planner/planner.go:260-425 | the whole phase, error cases included, equals its specification |
| `PlannerSteps.TaskTable.ReadProbed` | internal/store/task.go:692-710 | the endpoints probed, or an error at the first that cannot be read |
| `PlannerSteps.TaskTable.ProbeServices` | internal/planner/planner.go:446-496 | the whole phase equals its specification |
| `PlannerSteps.TaskTable.UrlStages` | internal/planner/planner.go:553-586 | with names cached per address, the web stages are those of looking them up each time |
| `PlannerSteps.TaskTable.PostProbe` | internal/planner/planner.go:521-597 | the whole phase equals its specification |
| `PlannerSteps.TaskTable.Tick` | internal/planner/planner.go:164-195 | one tick in place equals the function all theorems are about |
| `PlannerInitial.PlanInitial` | internal/planner/planner.go:57-126 | the first tasks, the fate of each target and the error cases |
| `PlannerStart.StartExploresDomains` | internal/planner/planner.go:74-81 | a run starts with one passive_enum and one dns_resolve task for each domain it was started for, in order, naming it, on the passive pool and attributed to it |
| `PlannerStart.StartBrutesDomains` | internal/planner/planner.go:131-161 | and with one dns_brute task for each domain not skipped and each wordlist, unless it is passive or brute-forcing is off |
| `PlannerStart.StartScansExactly` | internal/planner/planner.go:83-110 | and with one port scan for each address of each target that may be scanned, in order, and no others |
| `PlannerStart.StartStages` | internal/planner/planner.go:73-116 | and with no other tasks |
| `PlannerStart.FatesAre` | internal/planner/planner.go:74-110 | what becomes of each target: explored, scanned, untouched, or skipped for the first reason that applies |
| `PlannerStart.StartOutcomeExactly` | internal/planner/planner.go:57-126 | a run fails to start exactly without the passive pool, or without an exit pool when there is anything to scan; it has nothing to do exactly when nothing is asked |
| `PlannerInitial.ExpandTarget` | internal/planner/planner.go:101-109 | one port scan per host of an address or block |
| `PlannerInitial.BruteTasks` | internal/planner/planner.go:131-159 | one brute-force task per domain and wordlist unless switched off |
| `PlannerInitial.StartScansOnlyAuthorized` | internal/planner/planner.go:82-110 | every port scan a run starts with is of an authorized target that names no internal address, and no passive run has one |
| `PlannerInitial.StartScansAllAuthorized` | internal/planner/planner.go:82-110 | and none is left out: every address of every such target gets a port scan on the exit pool, attributed to it |
| `PlannerInitial.BlockStartDecides` | internal/planner/planner.go:94-109 | a CIDR target let through yields internal addresses exactly when its block starts at one, so never with clear host bits |
| `PlannerInitial.StartedRunsStaySound` | internal/planner/planner.go:57-195 | a run planned by PlanInitial meets the invariant of all runs in every state it ever reaches |
| `PlannerInitial.PassiveRunsSendNothing` | internal/planner/planner.go:131-170 | a passive run never has a task that touches the target or brute-forces names |
| `Asn.StepKeepsInvariant` | internal/scanner/asn.go:143-203 | every step of any caller keeps the maps, the channels and the callers consistent |
| `Asn.InvariantAlways` | internal/scanner/asn.go:143-203 | in every interleaving of any number of callers |
| `Asn.PendingExactlyWhileLed` | internal/scanner/asn.go:149-201 | a number is pending exactly while a caller asks for it, and never do two |
| `Asn.ClosedExactlyOnce` | internal/scanner/asn.go:195-202 | a channel is closed at most once, and has been exactly when its opener has returned |
| `Asn.WaitersAreServed` | internal/scanner/asn.go:156-167 | what a waiter waits for is closed or still held by a caller that will close it |
| `Asn.WaiterHearsLeader` | internal/scanner/asn.go:163-167 | a woken waiter returns the name its leader found, if any |
| `Asn.CachedForGood` | internal/scanner/asn.go:193-199 | a cached name is not empty and is never written again |
| `Asn.AnswersAgree` | internal/scanner/asn.go:143-203 | all callers that get a name for a number get the same |
| `Asn.EnterExactly` | internal/scanner/asn.go:144-156 | a caller gets the cached name at once, waits for one that is being asked for, and otherwise asks itself |
| `Asn.AskersReturnTheirAnswer` | internal/scanner/asn.go:157-203 | over every run, whoever asks does so at most three times, stops at the first name and returns what the last answer was, and nobody who waits asks |
| `Asn.Resolver.Begin` | internal/scanner/asn.go:144-156 | the first critical section is the protocol's entering step |
| `Asn.Resolver.Settle` | internal/scanner/asn.go:193-201 | the second is its finishing step |
| `Asn.Ask` | internal/scanner/asn.go:173-192 | the first name within three attempts, stopping early only when the context ends |
| `Budget.PortCount` | internal/scanner/stage_ports.go:117-152 | the presets, the count of a list, and the widest case for anything unreadable |
| `Budget.CountIs` | internal/scanner/stage_ports.go:112-152 | a preset is what its name says, a list at least its ports and exactly those if none is listed twice, and anything else all ports |
| `Budget.CountCovers` | internal/scanner/stage_ports.go:112-152 | the count is at least the number of ports listed, and equal exactly when none is listed twice |
| `Budget.PortScanBudget` | internal/scanner/stage_ports.go:173-201 | the budget of a sweep, with defaults for values out of range and the cap |
| `Budget.CappedExactly` | internal/scanner/stage_ports.go:197-200 | a positive maximum is never exceeded and changes nothing within it |
| `Budget.ClampedAre` | internal/scanner/stage_ports.go:174-185 | values out of range become the least that makes sense, and no others change |
| `Budget.BudgetIsTight` | internal/scanner/stage_ports.go:186-196 | nor is it longer than need be: a quarter of an hour, four times the send time give or take a second, or at most four times the wait time |
| `Budget.BudgetCovers` | internal/scanner/stage_ports.go:154-190 | uncapped, it is at least four times the real send time and at least the real wait time, although both divisions round down |
| `Budget.SweepCovered` | internal/scanner/stage_ports.go:154-190 | the same in terms of ports, hosts, timeout and retries |
| `Budget.BudgetMonotone` | internal/scanner/stage_ports.go:173-201 | it never shrinks with more ports, hosts, timeout or retries or with less rate or concurrency, capped or not |
| `Budget.NoOverflow` | internal/scanparams/scanparams.go:146-160 | no intermediate value exceeds 64 bits in the validated ranges with at most 64 hosts and 100000 ports |
| `Budget.NmapBudget` | internal/scanner/stage_ports.go:225-245 | the budget of service detection |
| `Budget.DetectionIs` | internal/scanner/stage_ports.go:225-245 | ten seconds for each port and started group of 64 hosts, forty when deep, and at least twenty minutes or an hour |
| `Budget.DetectionMonotone` | internal/scanner/stage_ports.go:225-245 | it grows with ports, hosts and depth |
| `Presence.Finding.DerivePresence` | internal/domain/domain.go:307-325 | counts, presence and since when, from the history |
| `Presence.SeenCounts` | internal/domain/domain.go:307-317 | the count of runs that saw it |
| `Presence.EventsTellPresence` | internal/diff/diff.go:68-95 | events strictly alternate, the first against the first verdict, and with that verdict tell the derived presence |
| `Presence.GoneSinceLatestGone` | internal/domain/domain.go:318-325 | a finding once seen is gone since the run that recorded the latest finding_gone; one never seen, since the first run |
| `Presence.ReturnsFollowGoneExactly` | internal/diff/diff.go:59-67 | every finding_returned follows a finding_gone exactly when the first run saw the finding or none did |
| `Presence.NewOnACoveredHostReturns` | internal/diff/diff.go:86-91 | a history in which one does not |
| `Presence.Differ.FindingPresence` | internal/diff/diff.go:68-95 | recording all findings of a run leaves every finding with exactly the events of its own history |
| `Presence.RunRecorded` | internal/store/finding.go:173-221 | what one run records about a finding is what its history gains, also before the finding exists |
| `LoginLimiter.Compact` | internal/httpapi/auth.go:169-175 | compaction in place keeps exactly the times in the window, in order |
| `LoginLimiter.RecentExactly` | internal/httpapi/auth.go:171-174 | kept are exactly the times less than fifteen minutes old, as often as they occur |
| `LoginLimiter.PermittedExactly` | internal/httpapi/auth.go:163-180 | a call is let through exactly when under none of its keys it makes more than ten tries in fifteen minutes since the last success |
| `LoginLimiter.RecentLater` | internal/httpapi/auth.go:171-174 | what has left the window never returns, so dropping it early changes no later answer |
| `LoginLimiter.KeyDropped` | internal/httpapi/auth.go:182-188 | pruning a key whose last attempt left the window loses nothing |
| `LoginLimiter.KeyCounted` | internal/httpapi/auth.go:169-180 | counting an attempt keeps every key's times standing for all its attempts |
| `LoginLimiter.Limiter.Allow` | internal/httpapi/auth.go:163-190 | answers exactly as a record of all attempts since the last success would, for every sequence of calls, keys repeated or not |
| `LoginLimiter.Limiter.Prune` | internal/httpapi/auth.go:182-188 | only keys with an attempt in the window are left, with their times |
| `LoginLimiter.Limiter.Succeed` | internal/httpapi/auth.go:194-200 | forgets the attempts under its keys and no others |
| `Fleet.CeilingExactly` | internal/fleet/fleet.go:78-113 | building never passes the ceiling, no fleet waits while there is room, those tried end as their attempt went and all other rows are unchanged |
| `Fleet.CeilingAlways` | internal/fleet/fleet.go:78-113 | over every sequence of ticks, requests and removals the ceiling on fleets that are up holds if it held at first |
| `Fleet.HostChangesExactly` | internal/fleet/fleet.go:121-280 | who has containers after each event, and what the rows then say |
| `Fleet.ContainersWithinExactly` | internal/fleet/fleet.go:40-42 | over every run no more runs have containers than may exactly when no fleet is built while that many have them |
| `Fleet.CrowdingNeedsLeftovers` | internal/store/fleet.go:192-202 | that takes containers of runs that are not up, at least as many as the count falls short by |
| `Fleet.TidyKeepsCeiling` | internal/fleet/fleet.go:183-280 | without a failed removal, an unrecorded fleet or a deleted run whose containers stay, the ceiling on runs with containers holds |
| `Fleet.LeftoversPassCeiling` | internal/fleet/fleet.go:259-265 | a run in which a failed removal leads past the ceiling |
| `Fleet.BuildingIsAttempts` | internal/fleet/fleet.go:78-99 | building a list of fleets is the attempts it makes, one by one |
| `Fleet.FailsOnlyAfterGrace` | internal/fleet/fleet.go:202-236 | a run is failed only after at least the grace period in which it was live at every look, with a count of zero at both ends and no worker counted between |
| `Fleet.QuietPastGraceFails` | internal/fleet/fleet.go:202-236 | and after such a period it has been failed |
| `Fleet.Manager.constructor` | internal/fleet/fleet.go:52-63 | a ceiling of three where none is given |
| `Fleet.Manager.BuildPending` | internal/fleet/fleet.go:78-99 | counting as it goes, the loop builds exactly what the ceiling admits |
| `Fleet.Manager.SuperviseLive` | internal/fleet/fleet.go:202-241 | the map of dead fleets always agrees with the whole history of looks, and exactly the runs that history condemns are failed |
| `Dispatch.Dispatcher.constructor` | internal/dispatch/dispatch.go:39-45 | a cap of at least one |
| `Dispatch.Dispatcher.LeaseTasksWhere` | internal/store/task.go:106-205 | the first eligible tasks of the ranking, up to the limit |
| `Dispatch.Dispatcher.Lease` | internal/dispatch/dispatch.go:55-76 | run on its own, brute-force tasks within the room left, then the rest |
| `Dispatch.LeaseIsSteps` | internal/dispatch/dispatch.go:55-76 | counting, leasing brute-force tasks and leasing the rest, with nothing in between, do the same |
| `Dispatch.CallsChangeExactly` | internal/dispatch/dispatch.go:55-76 | what each statement leaves a call with: the room it counted, what it may still hand out, or nothing |
| `Dispatch.TaskChangesExactly` | internal/store/task.go:106-205 | only a take holds a task, a waiting one of its sort, for the call's worker; only letting go or handing back changes one otherwise |
| `Dispatch.TakesCount` | internal/store/task.go:106-205 | as many tasks are leased as asked for, or all eligible ones of the ranking |
| `Dispatch.LeaseBounds` | internal/dispatch/dispatch.go:47-76 | run on its own, no more tasks than asked for, no more brute-force tasks than the cap or than held before, other workers untouched |
| `Dispatch.StepWithinCapExactly` | internal/store/task.go:96-103 | one statement of any call keeps workers within the cap exactly when it hands nothing back at the cap and takes no more than the room left |
| `Dispatch.CapKeptExactly` | internal/dispatch/dispatch.go:47-76 | the same over every interleaving of any number of calls with planning, letting go and handing back |
| `Dispatch.UndisturbedKeepsCap` | internal/agentapi/gateway.go:218-304 | where no brute-force task comes to a worker between a call's count and its lease, the cap is kept exactly when none is handed back at it |
| `Dispatch.ReadoptPassesCap` | internal/store/task.go:285-299 | a run that passes the cap by a task handed back |
| `Dispatch.HandbackBetweenPassesCap` | internal/agentapi/gateway.go:619-631 | a run that passes it by a task handed back below the cap, between a call's count and its lease |
| `Dispatch.TwoCallsPassCap` | internal/agentapi/gateway.go:879-883 | a run that passes it by two calls of one worker that count the same room |
| `DockerLog.DemuxDockerLog` | internal/provisioner/docker.go:399-417 | the loop over the buffer equals a recursive reading of the frames |
| `DockerLog.CutStream` | internal/provisioner/docker.go:399-417 | a stream cut off anywhere yields exactly the payload bytes that arrived |
| `DockerLog.DemuxUndoesEncode` | internal/provisioner/docker.go:399-417 | demultiplexing any frames' encoding is their payloads, and of any truncation a prefix of them |
| `DockerLog.PlainTextKeptExactly` | internal/provisioner/docker.go:396-406 | a log that starts with no frame header comes back unchanged exactly when it has at least eight bytes or none |

## Left out

- Summary: `Sources` counts are not part of a summary here; they add up on every merge, so a replayed batch counts twice.
- Delivery: a task executed a second time by the same worker, after being leased to it again, is not modelled; each task is executed once.
- Delivery.NoOvertaking: is about runs without failures; `Delivery.InOrderExactly` gives the exact condition with failures. All of them assume a clock that does not go back.
- EndToEnd.SummaryArrivesWhole: takes accepting a batch and merging it as one step; the code reads and writes the stored summary separately, so a request still being handled after its client gave up can overwrite a later merge.
- Planner: one tick is one atomic step, database errors inside it are limited to a missing pool, a missing exit pool and an unreadable probe, and the leader lock is not modelled.
- Planner: how texts parse (addresses, prefixes, URLs, numbers) and which names resolve to an address are tables given to a tick; the parsers themselves are not modelled.
- PlannerInitial.PlanInitial: overlapping targets are not folded and exclusions are not consulted on this path, as in the code, so nothing is claimed about either.
- PlannerRuns.OneWebWave: web endpoints reported after the web stages were planned get none; full coverage of web stages is not claimed.
- Budget.PortCount: works on list elements as parsed; splitting and reading the text is not modelled.
- Budget.PortScanBudget: arithmetic is unbounded; `Budget.NoOverflow` gives the ranges in which 64 bits do not matter.
- Presence.Differ.FindingPresence: runs are recorded in the order they started; runs that overlap in time are not modelled.
- Dispatch.Dispatcher.LeaseTasksWhere: the ranking, the capability and pool tests and the share per company are not modelled beyond the order of candidates; `LeaseProtocol` covers what a lease does to a row.
- Fleet.Manager.BuildPending: creating and removing containers is the outcome given for each fleet, and the outcome is recorded; `Fleet.Attempt` covers a server that goes before it records it.
- Guard: IPv6 addresses take part in exclusions and the private test, but the expansion theorem about internal ranges is for IPv4.
- HTTP handlers, the web application, report rendering, tool execution, DNS lookups, cryptography and storage of artifacts.
- Fingerprint rules, CDN tables and product versions: tables rather than logic.
- Launch options, schedules, roles and fleet sizing: shallow branching.
