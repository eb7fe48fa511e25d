# Proofs about WriterAgent's compute service and its tooling

Dafny models of the parts of the repository whose correctness is not plain from reading one body,
with proofs over all inputs, or over every interleaving where threads are involved. Verify all of it
with `dafny verify dfyconfig.toml`.

**The process pool** (`compute_service/worker_base.py`, `compute_service/formula_pool.py`).
`PoolState.dfy` holds the state that the pool's threads share and a function for each block of code
under the pool's lock. `FormulaPool.dfy` is the pool object with the source's fields: each method
carries out one block step by step and is proved to do what the function says. `PoolProtocol.dfy`
puts the blocks together with the unlocked actions between them (kill and respawn in
`release_worker`, the kill loop of the idle reaper, the reset in the session reaper, the frames of
`execute`) into a transition system: any number of threads, children that answer or die at any
moment, time that passes. `PoolSafety.dfy` proves an invariant by induction over all its steps, and
`PoolTheorems.dfy` draws from it what the source's comments promise. `PoolTimes.dfy` adds when things
happen: what the reapers take, when a worker is recycled, how a session ends; and `PoolProgress.dfy` that no
thread is stuck and no lease ends without a result. A request's ticket stands for
its payload, so an answer can be told to belong to a request. `check_dependencies` takes the same
steps as an isolated request. `ProcessWorker.dfy` is one wrapper used by
one thread, and the child's loop, for every outcome of the system calls. `KillRace.dfy` shows what the
protocol hides by taking a kill as one step.

**Admission** (`compute_service/server.py`): `Admission.dfy` has the semaphore and the per-session
counters, once as steps of concurrent requests and once as the object that one request uses.

**Algorithms** of the scripts, each as the source's loop proved against a specification, with the
hard property proved of the specification: `DeadlockSearch.dfy`, `SplitGrid.dfy` and
`SplitGridPack.dfy`, `LiteralScanner.dfy` and `LiteralTheorem.dfy`, `TopoSort.dfy`, `A1Notation.dfy`
and `SheetLayout.dfy` with `SheetFormulas.dfy`, `MenuStrip.dfy`, `TimingPairs.dfy`, `Splice.dfy`, `CiStatus.dfy`.
`Strings.dfy` has `find`, `rfind` and `str` of a number; `Sets.dfy` and `Wrappers.dfy` are small helpers.

Some claims are false of the code. For these the condition under which they hold is proved, for all
inputs, and an input on which they fail is given:

- The three unpackers do not agree on every envelope. NumPy's conversion fails on a cell of an int
  column outside 64-bit integers even where a string would cover it; the loops fail only on an
  infinity that no string covers (`UnpackersAgreeExactlyWhen`).
- A packed grid does not always come back. The two loops give back its normal form exactly if no row that
  is shorter than the longest has cells behind it, and the vectorised form exactly if all rows are
  equally long (`LoopsRoundTripExactly`, `NumpyRoundTripsExactly`, `RaggedComesBack`, `RaggedDoesNot`).
- Removing the Debug menu is not exact on every balanced document: a bare `<node>` tag is overlooked
  as long as an attributed one follows anywhere in the file, and a self-closed one is counted as
  opening. It is exact exactly where these errors cancel out (`StrippingIsExact`,
  `BareChildIsOverlooked`, `SelfClosedChildIsCounted`). The shipped menu file has neither kind of tag.
- The right-to-left splices are a substitution exactly if no two columns stand for one character
  (`SplicingIsSubstitution`). The sentinel of `except ... as _` and an explicit column can, because
  columns count bytes and the line is cut by characters (`ClashKeepsBothNames`); for the same reason a
  binding is renamed for its own column exactly if only ASCII characters come before it on the line
  (`RenamedExactlyBehindAscii`).
- A blocking call whose name is qualified is kept in the graph but never reported; but for these calls
  a complete search reports all that was kept (`CompleteUnlessQualified`, `QualifiedBlockingCallIsMissed`).
- Providers come before requirers exactly if the requires graph has no cycle, and core comes first
  exactly if it requires nothing else (`TopoSort`, `MutualNeedsAreCyclic`, `CoreMayNeedAnother`).
- Column letters are right exactly up to column ZZ (`ColumnLettersExactlyBelow702`, `Column702IsNoName`).
- A cell that a range of the sheet denotes holds the entry of the range's grid exactly if the second grid
  of its block has no cell there or an equal one, and the ranges of a block share a cell exactly if its
  first grid is wider than five columns (`RangeDenotesWrittenCells`, `GroupsShareUnlessApart`,
  `WideGroupIsDisturbed`).

The hazard search bounds the length of a path by 15. It finds every blocking call of a reachable node to
which no call path without repeated nodes is longer (`SearchFrom`), and it misses every call of a node that
all call paths reach later (`LateCallsAreNotReported`). These meet on straight chains
(`LongChainsAreMissed`).

Where code and comment disagree the code is modelled: the comment at
`scripts/analyze_tool_call_timing.py:80` says that a send sorts before a stream end of the same
second, but the key puts the stream end first.

Not claimed, because the code does not keep it: the idle reaper does kill workers that have tracked
sessions (`compute_service/worker_base.py:312-336`), the session reaper gives its lease back before
it drops the maps (`compute_service/formula_pool.py:99-106`), so a live namespace is not always
tracked, and an activity time can outlive its session (`compute_service/formula_pool.py:278-280`), so
only one inclusion between the two domains holds.

## Model

| member | source | states |
|---|---|---|
| PoolTheorems.ExclusiveOccupancy | compute_service/worker_base.py:12-14 | In every state of every run: no worker is idle and held, held by two threads or in two roles, and before shutdown every worker is idle, leased, being recycled or being evicted |
| PoolTheorems.ReaperKillsOnlyUnleased | compute_service/worker_base.py:324-329 | Whenever the idle reaper is about to kill a worker, that worker is not idle, no other thread holds it, and a live child of it has nothing in flight |
| PoolTheorems.SessionsAreSerial | compute_service/formula_pool.py:245-248 | Two threads never hold a worker for the same shared session, and the worker held is the one that the session's hash selects |
| PoolTheorems.AnswerIsForTheRequest | compute_service/worker_base.py:196-259 | In every interleaving, an answer that `execute` returns was given by the child to the request that this `execute` sent |
| PoolTheorems.FailureLeavesNoChild | compute_service/worker_base.py:184-257 | In every interleaving, whenever `execute` has failed with a code (no start, broken pipe, timeout, crash, no response) the worker's child is dead |
| PoolTheorems.QuietBetweenRequests | compute_service/worker_base.py:258-259 | While no `execute` or handshake is under way on a live worker, both pipes are empty and `tasks_executed` equals the number of answers that child has given |
| PoolTheorems.LaunchNeverOrphans | compute_service/worker_base.py:183-184 | A launch only ever happens for a wrapper whose child is dead, so no live child loses its owner |
| PoolTheorems.RecyclingDropsNoSession | compute_service/formula_pool.py:119-134 | From the check that decides for recycling to the end of the respawn, no session is mapped to the worker, in either map, whatever the other threads do |
| PoolTheorems.SessionMapsStayInverse | compute_service/formula_pool.py:100-106 | In every reachable state the two session maps are inverse, no worker has an empty set, each active session has an activity time and sits on the worker of its hash |
| PoolTheorems.WaitersAreNeverForgotten | compute_service/worker_base.py:348-375 | A thread that still waits in `lease_any` or `lease_specific` waits for something that is not there, and never after shutdown |
| PoolTheorems.DownStep | compute_service/worker_base.py:353-354 | No step after shutdown revives the pool or gives any thread a worker it did not hold |
| PoolTheorems.ShutdownIsFinal | compute_service/worker_base.py:407-419 | From shutdown to any later state of a run: still down, idle set and worker list empty, each thread holds at most what it held |
| PoolTheorems.NoChildOutlivesThePool | compute_service/worker_base.py:398-402 | After shutdown, once no thread holds a worker, no child is alive, although `execute` or recycling may have launched one after the kill loop |
| PoolTimes.EvictsExactlyTheExpired | compute_service/worker_base.py:315-327 | In every run, the idle reaper takes exactly the idle workers with a live child whose last lease ended, or which were built, at least the TTL before the time it goes by; told from the run, not from the recorded times |
| PoolTimes.ExpiresExactlyTheUnused | compute_service/formula_pool.py:80-88 | In every run, the session reaper picks exactly the tracked sessions that were last registered or done with a request at least the TTL before the time it goes by, each with its worker |
| PoolTimes.ClockWasRead | compute_service/worker_base.py:315-315 | The time that either reaper goes by is that at which it began its round |
| PoolTimes.WorkerTimes | compute_service/worker_base.py:404-404 | Until shutdown the recorded activity time of each worker is when its last lease ended, or when the pool was built |
| PoolTimes.SessionTimes | compute_service/formula_pool.py:270-280 | The recorded activity time of a session is when it was last registered or done with a request |
| PoolTimes.SessionsEndOnlySo | compute_service/formula_pool.py:100-144 | In every run a session is dropped only by its reset, by the session reaper behind its lease, or by a lease holder that finds the worker's child dead |
| PoolTimes.DropsOnlyAfterLease | compute_service/formula_pool.py:92-109 | The session reaper drops a session only after it has leased a worker for that session |
| PoolTimes.CheckTellsOfSessions | compute_service/formula_pool.py:125-132 | The check before recycling says of a live worker whether some session is on it, and leaves none on a dead one |
| PoolTimes.RecycledExactlyIfWorn | compute_service/formula_pool.py:131-134 | A worker with a live child goes on to be recycled exactly if the check found no session and its child has answered at least `max_tasks` requests |
| PoolTimes.WaitsOnlyInTime | compute_service/worker_base.py:353-360 | A thread begins to wait only before its deadline, while the pool is up and has nothing for it |
| PoolTimes.GivesUpOnlyLate | compute_service/worker_base.py:352-360 | A thread leaves the wait for a worker without one only after shutdown, or at its deadline with nothing there; and it then drops no session |
| PoolProgress.NobodyIsStuck | compute_service/formula_pool.py:77-281 | In every state of every run each thread that has entered the pool has a next step, unless it waits and its deadline is still to come |
| PoolProgress.EveryLeaseGetsAResult | compute_service/formula_pool.py:272-281 | Before a worker is checked, recycled or handed back, the request it was leased for has come to an answer, a failure or an exception, and the lease has gone on since |
| PoolProgress.TicketsAreFresh | compute_service/worker_base.py:196-197 | No two requests of a run carry the same ticket |
| PoolProgress.ReaperGoesThroughAll | compute_service/formula_pool.py:89-109 | The session reaper asks for the worker of one picked session after the other, for two seconds, goes on with the others if it does not get it, and else drops the session |
| PoolProgress.NothingBeginsAfterShutdown | compute_service/formula_pool.py:207-213 | After shutdown no request and no reaper round begins; only resets do |
| PoolSafety.InitHasInv | compute_service/worker_base.py:288-294 | The freshly built pool satisfies the invariant (shape, exclusive and complete occupancy, no lost wakeup, sticky routing, inverse maps, clean recycling, paired pipes, matching answers, mortality) |
| PoolSafety.NextKeepsInv | compute_service/worker_base.py:312-419 | Every atomic step of every thread, every act of a child and every tick keeps the invariant |
| PoolSafety.RunHasInv | compute_service/worker_base.py:262-419 | Every state of every run satisfies the invariant |
| PoolSafety.GrantKeepsInv | compute_service/worker_base.py:352-371 | Granting a lease keeps the invariant |
| PoolSafety.HandBackKeepsInv | compute_service/worker_base.py:398-405 | The last block of `release_worker`, which gives the worker back or kills it and wakes all waiters, keeps the invariant |
| PoolSafety.ChildStepKeepsInv | compute_service/worker_base.py:95-259 | Each unlocked step of a lease holder on its own child (launch, handshake, failed write, read, kill) keeps the invariant |
| PoolSafety.SendKeepsInv | compute_service/worker_base.py:196-197 | Writing a request under a new ticket keeps the pairing of frames and requests |
| PoolSafety.BindKeepsClean | compute_service/formula_pool.py:264-270 | Registering a session never puts it on a worker that is being recycled, because only the lease holder registers |
| PoolSafety.StickyBindKeepsInv | compute_service/formula_pool.py:264-270 | Registering a session on the leased worker keeps the invariant |
| PoolSafety.CheckKeepsInv | compute_service/formula_pool.py:125-132 | The locked check before recycling, which also drops the sessions of a dead worker, keeps the invariant |
| PoolSafety.ExecuteEndKeepsInv | compute_service/formula_pool.py:277-281 | The end of `execute` keeps the invariant, also when the session reaper kills the worker there |
| PoolSafety.EntryKeepsInv | compute_service/formula_pool.py:136-149 | Entering `execute`, routing it, `reset_session` and the session reaper's unlocked steps keep the invariant |
| PoolSafety.CollectKeepsInv | compute_service/worker_base.py:317-327 | Taking the stale workers out of the idle set keeps the invariant |
| PoolSafety.ReaperKillKeepsInv | compute_service/worker_base.py:328-329 | Each kill of the idle reaper keeps the invariant |
| PoolSafety.ReaddKeepsInv | compute_service/worker_base.py:330-336 | Putting the killed workers back, unless shut down meanwhile, keeps the invariant |
| PoolSafety.DiesKeepsInv | compute_service/worker_base.py:165-177 | The death of a child at any moment, killed or not, keeps the invariant, whoever holds its worker |
| PoolSafety.ClosesKeepsInv | compute_service/worker_base.py:119-134 | A child that closes its stdout and lives on, which ends a handshake without a frame, keeps the invariant |
| PoolSafety.ShutdownKeepsInv | compute_service/worker_base.py:407-419 | Shutdown at any moment keeps the invariant |
| PoolSafety.WorldKeepsInv | compute_service/worker_base.py:45-70 | A child that reports ready, answers, closes its stdout or dies, and the passing of time, keep the invariant |
| PoolState.BindKeepsMaps | compute_service/formula_pool.py:264-270 | Registering a session on the worker of its hash keeps the session maps inverse |
| PoolState.Slot | compute_service/formula_pool.py:246-246 | The index of the worker for a session is below the number of workers and differs from the hash's magnitude by a multiple of it |
| PoolState.UnbindKeepsMaps | compute_service/formula_pool.py:100-106 | Forgetting a session keeps the maps inverse, removes an emptied set, and the session is gone |
| PoolState.ClearKeepsMaps | compute_service/formula_pool.py:113-117 | Forgetting all sessions of a worker keeps the maps inverse, and no session is left on it |
| FormulaPool.FormulaProcessPool.constructor | compute_service/formula_pool.py:40-58 | Builds a pool with every worker idle, no session tracked, and each child quiet or dead |
| FormulaPool.FormulaProcessPool.AskAny | compute_service/worker_base.py:348-360 | One round of the wait loop: grants some idle worker and takes only it out, or refuses exactly on shutdown or at the deadline with nothing idle, or waits |
| FormulaPool.FormulaProcessPool.AskFor | compute_service/worker_base.py:362-375 | One round for a given worker: granted exactly if it is idle and the pool is up; refused exactly on shutdown or at the deadline |
| FormulaPool.FormulaProcessPool.TakeBack | compute_service/worker_base.py:398-405 | The fields become what the protocol's hand-back block says: idle again with a new activity time, or killed after shutdown |
| FormulaPool.FormulaProcessPool.Shutdown | compute_service/worker_base.py:407-419 | The loop kills exactly the listed workers, then all supervisor collections are empty; a second call changes nothing |
| FormulaPool.FormulaProcessPool.CollectStaleWorkers | compute_service/worker_base.py:315-327 | Picks exactly the idle workers with a live child whose recorded activity is at least the TTL before the given time, and takes just them out of the idle set |
| FormulaPool.FormulaProcessPool.ReaddWorkers | compute_service/worker_base.py:331-336 | Puts exactly the given workers back, and nothing after shutdown |
| FormulaPool.FormulaProcessPool.Register | compute_service/formula_pool.py:264-270 | The three maps become what the protocol's registration block says |
| FormulaPool.FormulaProcessPool.Forget | compute_service/formula_pool.py:138-144 | The three maps lose the session, with an emptied set removed; gives the worker it was on |
| FormulaPool.FormulaProcessPool.ClearWorkerSessions | compute_service/formula_pool.py:113-117 | The loop removes exactly the worker's sessions from all three maps |
| FormulaPool.FormulaProcessPool.HasSessions | compute_service/formula_pool.py:125-132 | Drops the sessions of a dead worker; of a live one tells whether it has any |
| FormulaPool.FormulaProcessPool.CollectStaleSessions | compute_service/formula_pool.py:82-87 | Picks exactly the active sessions whose recorded activity is at least the TTL before the given time, each with its worker |
| ProcessWorker.RunStdioLoop | compute_service/worker_base.py:45-70 | One readiness frame, then exactly one response per message in order, an error response for anything that is no dict, does not decode or makes the handler raise; ends at the first failed write of a response, and raises exactly if the readiness frame cannot be written |
| ProcessWorker.BaseProcessWorker.constructor | compute_service/worker_base.py:95-160 | A new wrapper is alive exactly if launch and handshake work, with nothing in flight and no task counted |
| ProcessWorker.BaseProcessWorker.Spawn | compute_service/worker_base.py:95-160 | Alive exactly if launch and handshake work; the count is reset exactly when the handshake read returned |
| ProcessWorker.BaseProcessWorker.Execute | compute_service/worker_base.py:179-259 | An answer answers this request and adds one to the count; each of the failure codes comes back exactly in its own situation and leaves the child dead; it raises exactly for a request that cannot be encoded, or when a shutdown took the process away before the deadline; pipes of a live child are empty before and after |
| KillRace.OrphanExactlyIfAssignedBetween | compute_service/worker_base.py:165-173 | Of all interleavings of kill with the spawning of a child for the same wrapper, exactly those leave a running child without wrapper in which the assignment in `_spawn` falls between the read and the clear |
| Admission.StepKeepsInv | compute_service/server.py:203-224 | Each of the separate steps of any request keeps: permits plus permit holders equal the limit, each session's count equals its admitted requests and is within its cap, zero counts are absent |
| Admission.RunHasInv | compute_service/server.py:199-224 | The same in every state of every interleaving |
| Admission.NeverOverReleased | compute_service/server.py:199-224 | Whenever a request is about to release, fewer than the limit are free, so the bounded semaphore never raises |
| Admission.EverythingComesBack | compute_service/server.py:300-367 | With no request under way, all permits are free and the session map is empty |
| Admission.LimitsHold | compute_service/server.py:205-213 | Permit holders never exceed the limit, and admitted requests of one session never exceed its cap |
| Admission.Inflight.constructor | compute_service/server.py:199-200 | All permits free and no session counted |
| Admission.Inflight.Acquire | compute_service/server.py:203-214 | Which refusal is given exactly when; a refusal leaves no trace; an admission takes one permit and counts one for the session |
| Admission.Inflight.Release | compute_service/server.py:216-224 | Gives one permit back and uncounts one, removing a count that would be zero |
| Admission.Inflight.Guarded | compute_service/server.py:301-367 | Acquire and release around a request leave permits and counts as they were, admitted or not |
| DeadlockSearch.SearchFrom | scripts/analyze_thread_deadlocks.py:211-240 | Terminates; each report is a real resolved call path of at most 15 names that ends in a blocking call at the reported place; and every blocking call of a reachable node is reported to which no call path without a repeated node has more than 15 names, whatever else the graph holds |
| DeadlockSearch.FindDeadlockHazards | scripts/analyze_thread_deadlocks.py:199-242 | The same for every entry node, among the reports of all |
| DeadlockSearch.ResultInCalls | scripts/analyze_thread_deadlocks.py:222-240 | The same told by the calls alone: a call leads to the node of its name, or else to that of the part behind its last dot; every report is a path of such calls, and every blocking call of a node to which no such path without a repeated node is longer than 15 is reported |
| DeadlockSearch.ResolveIsLead | scripts/analyze_thread_deadlocks.py:233-237 | The resolution of a callee finds the node of its name, or else the one of the part of its name behind the last dot, or none |
| DeadlockSearch.HelperIsFound | scripts/analyze_thread_deadlocks.py:233-240 | A blocking call in a helper that is called on self is found |
| DeadlockSearch.EntryNodesAre | scripts/analyze_thread_deadlocks.py:203-209 | The entry nodes are those named by a synchronous entrypoint, with or without a qualifier in front |
| DeadlockSearch.Extend | scripts/analyze_thread_deadlocks.py:233-240 | A followed call to an unvisited node makes a longer path without repeated nodes |
| DeadlockSearch.NearIsVisited | scripts/analyze_thread_deadlocks.py:233-240 | When the search from an entrypoint is over, every reachable node is visited to which no call path without a repeated node has more than 15 names |
| DeadlockSearch.ContinuedIsFar | scripts/analyze_thread_deadlocks.py:239-240 | A path on which the length guard cut, continued through unvisited nodes, can be shortened to one without a repeated node that is longer than 15 |
| DeadlockSearch.NotDeepReportsAll | scripts/analyze_thread_deadlocks.py:211-240 | Where no call path without a repeated node is longer than 15, every reachable blocking call is reported |
| DeadlockSearch.SmallIsNotDeep | scripts/analyze_thread_deadlocks.py:239-240 | With at most 15 nodes in reach there is no such path, so the search is complete |
| DeadlockSearch.LateCallsAreNotReported | scripts/analyze_thread_deadlocks.py:239-240 | For any graph: if every call path to a node has more than 15 names, none of its blocking calls is reported |
| DeadlockSearch.LongChainsAreMissed | scripts/analyze_thread_deadlocks.py:211-240 | For a straight chain of any length n: the search reports the blocking call at its end if and only if n is at most 15 |
| DeadlockSearch.CompleteUnlessQualified | scripts/analyze_thread_deadlocks.py:193-222 | For any graph whose reachable blocking calls are all reported: every reachable call that was kept as blocking is reported if and only if no reachable one is blocking by its bare name only |
| DeadlockSearch.QualifiedBlockingCallIsMissed | scripts/analyze_thread_deadlocks.py:160-165 | A method of a class that calls the blocking function on self makes such a call, which is kept and not reported |
| SplitGrid.UnpackCurrent | scripts/bench_unpacking_opt.py:21-51 | For a buffer of any length: rewrites the list in place to: string, else None for NaN, else a truncated int in an int column, else the float, and cuts it into slices of a row; raises exactly on an infinity in an int column that no string covers |
| SplitGrid.UnpackCycle | scripts/bench_unpacking_opt.py:55-88 | The cycled kinds give the same result as the modulo, for a buffer of any length |
| SplitGrid.UnpackNumpy | scripts/bench_unpacking_opt.py:92-123 | Raises at the reshape exactly if the buffer does not fill a two-dimensional shape, and in the conversion exactly if an int column has a cell outside 64-bit integers, covered or not; else column-wise conversion and string overlay give the cells that the loops give |
| SplitGrid.ConvertColumn | scripts/bench_unpacking_opt.py:111-116 | Converting through a view of column c changes exactly that column's valid cells in the flat array |
| SplitGrid.OverlayStrings | scripts/bench_unpacking_opt.py:118-121 | After the overlay every position is the cell it should be |
| SplitGrid.CycleIsModulo | scripts/bench_unpacking_opt.py:77-78 | The position of the cycled iterator is the index modulo the number of columns |
| SplitGrid.UnpackersAgreeExactlyWhen | scripts/bench_unpacking_opt.py:92-123 | The vectorised unpacker agrees with the two loops exactly if the buffer fills the shape and no cell of an int column is outside 64-bit integers, or some uncovered one is an infinity |
| SplitGrid.UnpackersDisagreeOnBigInteger | scripts/bench_unpacking_opt.py:116-116 | A concrete envelope, the integer 10^19, on which they differ |
| SplitGrid.Truncate | scripts/bench_unpacking_opt.py:47-47 | A float becomes the nearest integer towards zero |
| SplitGridPack.MockPack | scripts/bench_unpacking_opt.py:127-185 | For any grid, ragged ones included: the shape has the longest row as its width, the buffer holds each cell's number in order, the strings are exactly the text cells, and the kind is float for exactly the columns with a float or None |
| SplitGridPack.FloatColumn | scripts/bench_unpacking_opt.py:161-170 | A column counts as float exactly if one of its cells is None or a float |
| SplitGridPack.NormalFormIsBack | scripts/bench_unpacking_opt.py:127-185 | A grid is the normal form of another exactly if every cell is back at its place: booleans and integers as integers, or as floats in a column with None or a float; NaN as None; other objects as their text; and all else as it was |
| SplitGridPack.LoopsRoundTripExactly | scripts/bench_unpacking_opt.py:30-51 | For any packed grid with integers up to 2^53: the loops give back its normal form if and only if no row shorter than the longest has cells behind it |
| SplitGridPack.NumpyRoundTripsExactly | scripts/bench_unpacking_opt.py:101-123 | For any packed grid with such integers: the vectorised form gives back the normal form if all rows are equally long, and raises at the reshape if not |
| SplitGridPack.RaggedComesBack | scripts/bench_unpacking_opt.py:49-51 | The grid [[1, 2], [3]] comes back from the loops and makes the vectorised form raise |
| SplitGridPack.RaggedDoesNot | scripts/bench_unpacking_opt.py:49-51 | The grid [[3], [1, 2]] comes back from none |
| SplitGridPack.PackCell | scripts/bench_unpacking_opt.py:159-175 | What packing one cell adds to kinds, buffer and strings |
| SplitGridPack.FlatRoundTrip | scripts/bench_unpacking_opt.py:127-185 | A list with such integers comes back in its normal form from all three |
| SplitGridPack.NormalFormIsIdempotent | scripts/bench_unpacking_opt.py:127-185 | The normal form of any grid is its own normal form |
| SplitGridPack.NormalFormStaysExact | scripts/bench_unpacking_opt.py:127-185 | The normal form has only integers up to 2^53 if the grid has |
| SplitGridPack.PackAndUnpack | scripts/bench_unpacking_opt.py:127-185 | The three unpackers applied to a packed grid: the two loops agree, each gives back the normal form exactly under its own condition, and then every cell is back at its place as its column makes it |
| SplitGridPack.SecondTrip | scripts/bench_unpacking_opt.py:127-185 | What comes back from a first trip comes back unchanged from a second |
| LiteralScanner.JsonToPython | scripts/generate_manifest.py:95-136 | The index loop with its two flags and the keyword loop computes the recursive scan |
| LiteralScanner.FindKeyword | scripts/generate_manifest.py:124-132 | Finds a keyword exactly if one stands there as a whole word |
| LiteralTheorem.TranslationCommutesWithPrinting | scripts/generate_manifest.py:95-136 | For every JSON value, the scan of its printed text is the same value printed with True, False and None |
| LiteralTheorem.ValuePasses | scripts/generate_manifest.py:199-208 | The same for a value at any place inside a larger text |
| LiteralTheorem.QuotedPasses | scripts/generate_manifest.py:104-122 | A string literal comes through unchanged, whatever quotes, backslashes or keywords it contains |
| TopoSort.TopoSort | scripts/generate_manifest.py:62-91 | Each known name exactly once for any graph; every provider that does not lead back to its requirer before it, for any graph; all providers first if and only if there is no cycle; core first if and only if it requires nothing but itself, and else after nothing but what it reaches |
| TopoSort.OrderOfModules | scripts/generate_manifest.py:62-91 | The same told by the modules alone: the order holds for each name its last module, once, and what meets a requirement comes before what requires it unless it leads back there |
| TopoSort.EdgeIsNeed | scripts/generate_manifest.py:80-83 | A name requires another exactly if its last module lists a requirement that the other's module is the last to list as a service, or that no module lists and that is the other's name |
| TopoSort.ProvidersAreLast | scripts/generate_manifest.py:65-68 | The provider of a service is the last module that lists it, and there is one exactly if some module does |
| TopoSort.NamesAreLast | scripts/generate_manifest.py:64-64 | The module of a name is the last one of that name |
| TopoSort.EveryServiceCounts | scripts/generate_manifest.py:66-68 | A module whose second service is required comes before the module that requires it |
| TopoSort.MutualNeedsAreCyclic | scripts/generate_manifest.py:80-83 | Two modules that require each other make a cycle |
| TopoSort.Sorter.Visit | scripts/generate_manifest.py:73-84 | A visit terminates, emits only what the name reaches, each after its providers that do not lead back to it, leaves the set of open names as it was, and ends with the name itself |
| TopoSort.Sorter.ProvidersEmitted | scripts/generate_manifest.py:80-84 | When a module is emitted, all its providers are that do not lead back to it |
| TopoSort.OrderedMeansAcyclic | scripts/generate_manifest.py:62-91 | An order with all providers first can exist only without cycles |
| TopoSort.OrderedExactlyIfAcyclic | scripts/generate_manifest.py:62-91 | Of orders in which one-way providers come first, those with all providers first are those of acyclic graphs |
| TopoSort.CoreOrCoreNeeds | scripts/generate_manifest.py:86-87 | What the visit of core emits begins with core if and only if core requires nothing else |
| TopoSort.CoreMayNeedAnother | scripts/generate_manifest.py:86-87 | Two modules with which core is not first |
| TopoSort.VisitAll | scripts/generate_manifest.py:88-89 | After the last loop every name is emitted once |
| A1Notation.ColumnLettersExactlyBelow702 | scripts/generate_serialization_spreadsheet.py:117-123 | The column scheme gives letters exactly for columns before 702, that is up to ZZ |
| A1Notation.Column702IsNoName | scripts/generate_serialization_spreadsheet.py:121-123 | Behind ZZ comes a name that begins with a bracket |
| A1Notation.RangeDenotesRectangle | scripts/generate_serialization_spreadsheet.py:132-144 | Read back independently, a written range denotes exactly the rectangle it was made for, in all four forms |
| A1Notation.OnlyOneCellIsAlone | scripts/generate_serialization_spreadsheet.py:132-144 | A single cell is written as one reference, anything larger as two |
| A1Notation.RefReads | scripts/generate_serialization_spreadsheet.py:117-123 | Column letters and row number, written and read back, give the same cell |
| SheetLayout.DataRangesForCase | scripts/generate_serialization_spreadsheet.py:147-155 | One range for each group that has cells, in order |
| SheetLayout.WriteGroup | scripts/generate_serialization_spreadsheet.py:266-270 | Writing one group's row fails exactly at a short grid row or beyond the sheet's width, and else changes just that group's columns |
| SheetLayout.GridRow | scripts/generate_serialization_spreadsheet.py:260-270 | Fails exactly if a group's row cannot be written; else the row holds every group's cells in that group's columns, a later group over an earlier one, and nothing else |
| SheetLayout.BlockRows | scripts/generate_serialization_spreadsheet.py:234-274 | Fails exactly if a row of a grid cannot be written; else a block is its header, its grid rows and a blank row, with the formulas made from the case's ranges |
| SheetLayout.HeaderHolds | scripts/generate_serialization_spreadsheet.py:243-257 | In the finished sheet every field of a case stands in its own column of the block's header, and the input columns there are blank |
| SheetLayout.GridRowsHold | scripts/generate_serialization_spreadsheet.py:260-270 | In the finished sheet the rows of a block's grids are labelled from `row_1` on and are blank where no grid has an entry |
| SheetLayout.RowFitsExactly | scripts/generate_serialization_spreadsheet.py:266-270 | A row can be written exactly if each column of its grid has an entry in it and a cell in the sheet |
| SheetLayout.EntriesAsCells | scripts/generate_serialization_spreadsheet.py:205-215 | Booleans are written as 1 and 0, nothing as a blank, and all else as it is |
| SheetLayout.BuildSheetRows | scripts/generate_serialization_spreadsheet.py:308-325 | Fails exactly if a case does not fit; else every block is at the row that its formulas assume, because excel_row is always one more than the number of rows |
| SheetLayout.PlaceCase | scripts/generate_serialization_spreadsheet.py:314-324 | One turn of that loop keeps the row count and places the next block |
| SheetLayout.RangeDenotesWrittenCells | scripts/generate_serialization_spreadsheet.py:234-274 | In the finished sheet, whatever grids fit, the cells that a group's range denotes are exactly those where its entries were written, and each holds its entry if and only if the second group has no cell there or an equal one |
| SheetLayout.ApartIsUndisturbed | scripts/generate_serialization_spreadsheet.py:112-114 | With a first grid of at most five columns, every cell holds its entry |
| SheetLayout.WideGroupIsDisturbed | scripts/generate_serialization_spreadsheet.py:263-270 | A first grid of six columns that fits and loses its last entry to the second |
| SheetLayout.FormulasUseTheRanges | scripts/generate_serialization_spreadsheet.py:243-257 | The formulas of a block are made with the ranges of exactly its groups that have cells |
| SheetFormulas.HeaderFormulaReads | scripts/generate_serialization_spreadsheet.py:193-201 | Read independently, the formula in a block's header is the case's code, quotes included, applied to the ranges of its groups that have cells, or to none for an error case |
| SheetFormulas.PythonFormulaReads | scripts/generate_serialization_spreadsheet.py:193-201 | Any code and any ranges without commas are read back from the formula as they were |
| SheetFormulas.OracleTexts | scripts/generate_serialization_spreadsheet.py:158-190 | The formulas of all oracles for a block in given rows |
| SheetFormulas.CellByCellOracleTexts | scripts/generate_serialization_spreadsheet.py:181-187 | The same for the oracles that look at one cell after the other |
| SheetFormulas.OracleTextsOfSmallGrids | scripts/generate_serialization_spreadsheet.py:166-190 | The same for a grid of one row, and for a case without cells |
| SheetLayout.GroupsShareUnlessApart | scripts/generate_serialization_spreadsheet.py:112-114 | The ranges of two groups of a block that have cells share one if and only if the first grid is wider than five columns |
| SheetLayout.RangesNeverOverlap | scripts/generate_serialization_spreadsheet.py:314-324 | No cell is denoted by the ranges of two blocks |
| SheetLayout.BlocksAreApart | scripts/generate_serialization_spreadsheet.py:314-324 | Every block ends before a later one begins |
| MenuStrip.CutElement | scripts/build_oxt.py:315-335 | The depth-counting loop terminates on every text and computes the recursive form |
| MenuStrip.StripDebugMenu | scripts/build_oxt.py:311-335 | The whole step, unchanged text without marker or tag included |
| MenuStrip.LStripCutsLineEnds | scripts/build_oxt.py:333-333 | What is left behind the cut begins behind all line ends there |
| MenuStrip.FindIsNextTag | scripts/build_oxt.py:318-321 | On a document the text searches find the tags and nothing else |
| MenuStrip.LoopTakes | scripts/build_oxt.py:317-335 | On any document and from any depth, the loop stops at the tag where the count of seen tags reaches zero |
| MenuStrip.TakenIsMatch | scripts/build_oxt.py:318-334 | The loop takes the true matching tag if and only if its two errors cancel out there and never brought it to zero before: self-closed tags counted as opening, bare tags overlooked while an attributed one follows |
| MenuStrip.OneErrorAlone | scripts/build_oxt.py:318-334 | With one kind of error only, that is so exactly if there is no such error |
| MenuStrip.RemovalKeepsBalance | scripts/build_oxt.py:311-335 | A balanced document stays balanced without one of its elements |
| MenuStrip.StrippingIsExact | scripts/build_oxt.py:311-335 | On any balanced document, exactly the marked element and the newlines behind it go, if and only if its tag is not self-closed and the loop counts right in it; the document without it is well formed and balanced |
| MenuStrip.AttributedTagsAreSafe | scripts/build_oxt.py:311-335 | With attributed tags only, the removal is exact if and only if the element has no self-closed tag |
| MenuStrip.BareChildIsOverlooked | scripts/build_oxt.py:318-320 | A concrete document on which the loop stops early |
| MenuStrip.SelfClosedChildIsCounted | scripts/build_oxt.py:318-326 | A concrete document with a self-closed child on which the loop does not cut out the element |
| TimingPairs.Pair | scripts/analyze_tool_call_timing.py:91-105 | Each send gets the earliest unused end not before it, ends are used once and in order, and no other matching pairs more sends |
| TimingPairs.SortLogSorts | scripts/analyze_tool_call_timing.py:80-80 | The sort keeps all events and puts them in the order of the source's key |
| TimingPairs.PairLog | scripts/analyze_tool_call_timing.py:80-105 | For any log: as many pairs as its sends and stream ends can be paired at all, each with an end not before the send |
| TimingPairs.NoBetterPairing | scripts/analyze_tool_call_timing.py:80-105 | No way to pair the log's own sends with its own stream ends, each once and no end before its send, has more pairs |
| TimingPairs.PairsAreAPairing | scripts/analyze_tool_call_timing.py:80-105 | The pairs found are such a way |
| TimingPairs.TimesAreAll | scripts/analyze_tool_call_timing.py:82-92 | The list of times of one kind goes through all events of that kind, each once |
| TimingPairs.TimesAreAscending | scripts/analyze_tool_call_timing.py:80-92 | In a log sorted by the source's key, sends and ends are each in order of time |
| TimingPairs.GreedyIsMaximum | scripts/analyze_tool_call_timing.py:91-105 | Any matching with ends not before sends has at most as many pairs as the greedy one |
| Splice.RenameOnLine | scripts/fix_bare_underscore_throwaways.py:131-161 | The two loops compute the spans and cut them in from right to left |
| Splice.CollectSpans | scripts/fix_bare_underscore_throwaways.py:136-157 | The first loop collects the spans |
| Splice.SpansExactly | scripts/fix_bare_underscore_throwaways.py:137-157 | There is a span for a character exactly if some column stands for it, named by the rank of that column, rejected ones counted |
| Splice.TargetExactly | scripts/fix_bare_underscore_throwaways.py:142-157 | A column stands for the `_` there exactly if it is no part of a longer name; the sentinel stands for the `_` of the first ` as _` of the line, if no name goes on behind it |
| Splice.NamesAreNumbered | scripts/fix_bare_underscore_throwaways.py:140-140 | The first name has nothing behind `_unused`, every other has its number |
| Splice.NamesDiffer | scripts/fix_bare_underscore_throwaways.py:140-140 | Different ranks give different names |
| Splice.SplicingIsSubstitution | scripts/fix_bare_underscore_throwaways.py:159-161 | The result equals simultaneous substitution, whatever name is picked for each character, if and only if no two columns stand for one character |
| Splice.ByteOffsetIsIndex | scripts/fix_bare_underscore_throwaways.py:53-80 | The column of a character is its index exactly if only ASCII characters come before it |
| Splice.RenamedExactlyBehindAscii | scripts/fix_bare_underscore_throwaways.py:149-157 | A bare binding is renamed for its own column exactly if only ASCII characters come before it on the line |
| Splice.ClashKeepsBothNames | scripts/fix_bare_underscore_throwaways.py:82-86 | A handler line for which the sentinel and the column of a lambda argument, counted in bytes, meet at one character: both names are put in there |
| Splice.RewriteLine | scripts/fix_bare_underscore_throwaways.py:182-200 | One line is renamed in its body and keeps its ending, and the flag tells whether it differs |
| Splice.RewriteFile | scripts/fix_bare_underscore_throwaways.py:174-204 | Every line of the result is the text of the source line with its own columns renamed, and its ending; the flag tells whether the text differs |
| Splice.ColumnsAreHits | scripts/fix_bare_underscore_throwaways.py:175-177 | The columns of a line are those of the hits on it |
| Splice.EndingIsLongest | scripts/fix_bare_underscore_throwaways.py:185-195 | The ending kept is the longest of the line ends that the line has |
| Splice.FileIsSubstituted | scripts/fix_bare_underscore_throwaways.py:131-204 | All lines of a file are substituted simultaneously if and only if no line has a clash |
| Splice.RewriteLines | scripts/fix_bare_underscore_throwaways.py:174-204 | For any renaming of a line that leaves a line without columns alone: every line of the result is the source line with its own columns renamed, other lines are untouched, and the flag tells whether the text differs |
| CiStatus.CollectStatus | scripts/generate_ci_status.py:189-225 | The shared search with early exit gives every row what it would get alone |
| CiStatus.SearchWorkflow | scripts/generate_ci_status.py:198-223 | All rows of one workflow get their first hit, other rows are untouched |
| CiStatus.FirstHitIsFirst | scripts/generate_ci_status.py:189-190 | The hit of a row is the first matching job of the newest run that has one; no hit means that none matches |
| CiStatus.FirstJobIsFirst | scripts/generate_ci_status.py:208-222 | The job taken from a run is the first that matches |
| CiStatus.MatchesByNeedles | scripts/generate_ci_status.py:82-88 | A job is a row's exactly if every needle of the row stands somewhere in its name |
| CiStatus.HitIsNewest | scripts/generate_ci_status.py:189-222 | A row shows the first job with all its needles in the newest run that has an id and such a job, and nothing exactly if no run has one |
| CiStatus.HitStays | scripts/generate_ci_status.py:201-202 | Leaving off once every row is filled changes nothing |

## Left out

- Pickle bytes, deadlines inside a frame, the stderr drain and log texts: a pipe carries whole frames or fails; the outcome of each system call is a parameter.
- Time is an integer that never goes back; a timeout is a step that is possible once the deadline has passed.
- Python's `hash` of a string is some fixed function; `str.isalnum` is some predicate that is false of JSON's separators.
- `kill` is one step, although the source waits up to a second for the process to end.
- LaunchNeverOrphans: `kill` reads and clears `process` in two steps (`compute_service/worker_base.py:167-168`); if the assignment in `_spawn` (line 112) falls between those of a `shutdown`, a live child loses its wrapper. The protocol takes `kill` as one step and does not cover this race; `KillRace.OrphanExactlyIfAssignedBetween` shows it by itself.
- NoChildOutlivesThePool: the same race is not covered.
- Liveness: every thread can go on (`PoolProgress.NobodyIsStuck`) and no waiter sleeps beside what it waits for, but nothing says that a waiter is served at last.
- Sockets, HTTP parsing, authentication and the response bodies of `compute_service/server.py`; `mode` only decides whether a session is counted.
- `compute_service/vision_pool.py`, `config.py`, `executor.py`, `json_egress.py` and the plain `BaseProcessPool.should_recycle_worker`: the same protocol or easy members.
- The sandbox, the payload codec and the IPC framing under `plugin/` are not part of this model.
- ReaperKillsOnlyUnleased: says nothing of tracked sessions, because the idle reaper does drop them.
- PairLog: reading lines and timestamps, and the printed T1 and T2 lines, are not modelled.
- UnpackNumpy: doubles are reals, NaN or an infinity, so rounding of integers beyond 2^53 is not modelled; the round trips are stated up to that magnitude.
- MockPack: a list that mixes rows and single cells, and integers too large for a double, at which the source fails, are not modelled.
- TranslationCommutesWithPrinting: NaN and Infinity, which `json.dumps` can print but JSON does not have, are left out.
- SearchFrom: says nothing of nodes to which some call path without repeated nodes is longer than 15 names and another is not.
- FindDeadlockHazards: the call graph is given; reading and parsing the Python files is not modelled, and the entry nodes are searched in any order.
- TopoSort: the last loop visits the names in any order, so the result is proved for every order and not only for the sorted one.
- BuildSheetRows: comparison formulas are one opaque cell, and the case's code is given on one line; styling and writing the workbook are left out.
- DataRangesForCase: grids are at most 1,436,000 columns wide, beyond which the column scheme runs into code points that a text cannot hold; the same bound is on BlockRows and BuildSheetRows.
- StrippingIsExact: the document's `<node>` tags must be balanced and the marker must first occur in the attributes of one of them; the file around the step is not modelled.
- RenameOnLine: columns are given; collecting them from the syntax tree is not modelled.
- RewriteFile: lines are given; `splitlines` also cuts at characters such as form feed, at which the line numbers of the syntax tree do not count on.
- CollectStatus: a hit is the run and the job; the text fields of a row are simple formatting. The pages of the API are one list of runs, and rows within a job are tried in index order.
- OracleTexts: the oracle formulas are shown for one block; only `=PYTHON` formulas are read back for every block.
