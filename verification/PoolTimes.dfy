/** When things happen in a run of the pool: what the two reapers take, when a worker is recycled,
    how a session ends, and when a thread gives up waiting.

    Times are told from the run itself, from the moments at which threads gave workers back and used
    sessions, and not from the times that the pool has written down. */
module PoolTimes {
  import opened PoolState
  import opened PoolProtocol
  import opened PoolSafety

  // ---------- What a step can do ----------

  /** The kinds of steps, told apart by what they do to the pool. */
  datatype Kind = OfWorld | Entering | Leasing | Working | Binding | Ending | Examining | Returning | Reaping

  /** The other threads stay where they are or are woken. */
  ghost predicate OthersStay(s: State, s': State, t: ThreadId) {
    && t in s.pcs && s'.pcs.Keys == s.pcs.Keys && s.ticket <= s'.ticket
    && forall u | u in s.pcs && u != t :: s'.pcs[u] == s.pcs[u] || (s.pcs[u].Waiting? && s'.pcs[u] == Wake(s.pcs[u]))
  }

  ghost predicate Acts(s: State, s': State) {
    s'.pcs == s.pcs && s'.ticket == s.ticket && s'.pool == s.pool.(procs := s'.pool.procs)
  }

  /** The request of a lease at this stage has come to a result. */
  ghost predicate HasResult(stage: Stage) {
    match stage
    case Launching(why) => why.ToRecycle?
    case Handshaking(why) => why.ToRecycle?
    case Spawned(why) => why.ToRecycle?
    case Finished(_, _) => true
    case Checking => true
    case Checked(_) => true
    case Recycling => true
    case Handing => true
    case _ => false
  }

  ghost predicate Enters(c: Config, s: State, s': State, t: ThreadId) {
    && OthersStay(s, s', t)
    && (s.pcs[t].Outside? || s.pcs[t].Admitted? || s.pcs[t].ExpiryArmed? || s.pcs[t].NextExpiry? || s.pcs[t].Dropping?)
    && !s'.pcs[t].Holding? && !s'.pcs[t].Waiting? && !s'.pcs[t].Dropping? && !s'.pcs[t].ReaperArmed?
    && s'.pool == s.pool.(active := s'.pool.active, bound := s'.pool.bound, touched := s'.pool.touched)
    && (forall sid | sid in s'.pool.touched :: sid in s.pool.touched && s'.pool.touched[sid] == s.pool.touched[sid])
    && (forall sid | sid in s.pool.active && sid !in s'.pool.active ::
          || (s.pcs[t].Outside? && s'.pcs[t].Asking? && s'.pcs[t].job == Reset(sid))
          || (s.pcs[t].Dropping? && s.pcs[t].sid == sid))
    && (s.pcs[t].Outside? && s.pool.down ==> s'.pcs[t].Outside? || (s'.pcs[t].Asking? && s'.pcs[t].job.Reset?))
    && (s.pcs[t].NextExpiry? ==> s'.pool == s.pool && s'.pcs[t] == AfterNext(s.pcs[t].rest, s.now))
    && (s.pcs[t].Dropping? ==> s'.pcs[t] == NextExpiry(s.pcs[t].rest) && s.pcs[t].sid !in s'.pool.active)
    && (s'.pcs[t].ExpiryArmed? ==> s.pcs[t].Outside? && s'.pcs[t].seen == s.now)
    && (s.pcs[t].ExpiryArmed? ==>
          s'.pool == s.pool && s'.pcs[t].NextExpiry? && Picks(c, s, s.pcs[t].seen, s'.pcs[t].rest))
  }

  /** The session reaper asks for the worker of the next session, for two seconds. */
  ghost function AfterNext(rest: seq<(SessionId, WorkerId)>, now: int): PC {
    if rest == [] then Outside else Asking(This(rest[0].1), Expire(rest[0].0, rest[1..]), now + 2)
  }

  ghost predicate Picks(c: Config, s: State, seen: int, picked: seq<(SessionId, WorkerId)>) {
    var stale := StaleSessions(s.pool, c.sessionTtl, seen);
    forall sid, w :: (sid, w) in picked <==> sid in stale && stale[sid] == w
  }

  ghost predicate Leases(s: State, s': State, t: ThreadId) {
    && OthersStay(s, s', t) && s'.pool == s.pool.(idle := s'.pool.idle)
    && (s.pcs[t].Asking? || s.pcs[t].Waiting?)
    && (s'.pcs[t].Holding? || s'.pcs[t].Waiting? || s'.pcs[t].Asking? || s'.pcs[t].Outside? || s'.pcs[t].NextExpiry?)
    && (s.pcs[t].Asking? && !s'.pcs[t].Holding? && !s'.pcs[t].Waiting? ==>
          && s'.pcs[t] == (if s.pcs[t].job.Expire? then NextExpiry(s.pcs[t].job.rest) else Outside)
          && (s.pool.down || (!Available(s.pool, s.pcs[t].want) && s.pcs[t].deadline <= s.now)))
    && (s'.pcs[t].Holding? ==> s'.pcs[t].stage.Leased?)
    && (s'.pcs[t].Waiting? ==> !s.pool.down && !Available(s.pool, s'.pcs[t].want) && s.now < s'.pcs[t].deadline)
  }

  /** Thread t holds a worker at some stage, and its step leaves it a worker and job. */
  ghost predicate KeepsWorker(s: State, s': State, t: ThreadId) {
    && OthersStay(s, s', t) && s.pcs[t].Holding? && s.pcs[t].w in s.pool.procs
    && s'.pcs[t].Holding? && s'.pcs[t].w == s.pcs[t].w && s'.pcs[t].job == s.pcs[t].job
  }

  ghost predicate WorksOn(c: Config, s: State, s': State, t: ThreadId) {
    && KeepsWorker(s, s', t) && s'.pool == s.pool.(procs := s'.pool.procs)
    && MovesOn(c, s, s', s.pcs[t].stage, s'.pcs[t].stage, s.pool.procs[s.pcs[t].w])
  }

  /** How the stage of a holder changes in such a step. */
  ghost predicate MovesOn(c: Config, s: State, s': State, stage: Stage, next: Stage, q: Proc) {
    && !stage.Leased? && !stage.Finished? && !stage.Checking?
    && (HasResult(next) ==> HasResult(stage) || next.Finished?)
    && (next.Awaiting? ==> next.ticket == s.ticket < s'.ticket)
    && (stage.Checked? ==> next == if !stage.hasSessions && q.tasks >= c.maxTasks then Recycling else Handing)
  }

  ghost predicate Binds(s: State, s': State, t: ThreadId) {
    && KeepsWorker(s, s', t) && s.pcs[t].stage.Leased? && s'.pcs[t].stage.Bound?
    && s'.pool == if s.pcs[t].job.Sticky? then Bind(s.pool, s.pcs[t].job.sid, s.pcs[t].w, s.now) else s.pool
  }

  ghost predicate EndsExecute(s: State, s': State, t: ThreadId) {
    && KeepsWorker(s, s', t) && s.pcs[t].stage.Finished? && s'.pcs[t].stage.Checking?
    && s'.pool.(procs := s.pool.procs)
       == if s.pcs[t].job.Sticky? then Touch(s.pool, s.pcs[t].job.sid, s.now) else s.pool
  }

  ghost predicate Examines(s: State, s': State, t: ThreadId) {
    && KeepsWorker(s, s', t) && s.pcs[t].stage.Checking?
    && s'.pool == CheckSessions(s.pool, s.pcs[t].w).0
    && s'.pcs[t].stage == if s.pool.procs[s.pcs[t].w].alive then Checked(CheckSessions(s.pool, s.pcs[t].w).1)
                          else Handing
  }

  ghost predicate Returns(s: State, s': State, t: ThreadId) {
    && OthersStay(s, s', t) && s.pcs[t].Holding? && s.pcs[t].w in s.pool.procs && s.pcs[t].stage.Handing?
    && s'.pool == GiveBack(s.pool, s.pcs[t].w, s.now) && s'.pcs[t] == AfterRelease(s.pcs[t].job)
  }

  ghost predicate Reaps(c: Config, s: State, s': State, t: ThreadId) {
    && OthersStay(s, s', t) && (s.pcs[t].Outside? || s.pcs[t].ReaperArmed? || s.pcs[t].Evicting?)
    && (s.pcs[t].Outside? && s.pool.down ==> s'.pcs[t].Outside?)
    && (s'.pcs[t].Outside? || s'.pcs[t].ReaperArmed? || s'.pcs[t].Evicting?)
    && s'.pool == s.pool.(workers := s'.pool.workers, idle := s'.pool.idle, down := s'.pool.down,
                          lastActive := s'.pool.lastActive, procs := s'.pool.procs)
    && (!s'.pool.down ==> s'.pool.lastActive == s.pool.lastActive && !s.pool.down)
    && (s'.pcs[t].ReaperArmed? ==> s.pcs[t].Outside? && s'.pcs[t].seen == s.now)
    && (s.pcs[t].ReaperArmed? ==>
          && s.pool.idle <= s.pool.procs.Keys
          && Holds(s'.pcs[t]) == StaleWorkers(s.pool, c.idleTtl, s.pcs[t].seen)
          && s'.pool.idle == s.pool.idle - Holds(s'.pcs[t]))
  }

  ghost predicate Does(c: Config, s: State, s': State, t: ThreadId, kind: Kind) {
    match kind
    case OfWorld => Acts(s, s')
    case Entering => Enters(c, s, s', t)
    case Leasing => Leases(s, s', t)
    case Working => WorksOn(c, s, s', t)
    case Binding => Binds(s, s', t)
    case Ending => EndsExecute(s, s', t)
    case Examining => Examines(s, s', t)
    case Returning => Returns(s, s', t)
    case Reaping => Reaps(c, s, s', t)
  }

  lemma EntryEnters(c: Config, s: State, s': State, t: ThreadId, step: Step)
    requires t in s.pcs && EntryStep(c, s, s', t, step)
    ensures Enters(c, s, s', t)
  {
    if step.ExpiryCollect? {
      PickedExactly(s, c.sessionTtl, s.pcs[t].seen, step.picked);
    }
  }

  lemma PickedExactly(s: State, ttl: int, seen: int, picked: seq<(SessionId, WorkerId)>)
    requires var stale := StaleSessions(s.pool, ttl, seen);
             && (forall i | 0 <= i < |picked| :: picked[i].0 in stale && picked[i].1 == stale[picked[i].0])
             && (forall sid | sid in stale :: (sid, stale[sid]) in picked)
    ensures var stale := StaleSessions(s.pool, ttl, seen);
            forall sid, w :: (sid, w) in picked <==> sid in stale && stale[sid] == w
  {
    forall sid, w | (sid, w) in picked
      ensures var stale := StaleSessions(s.pool, ttl, seen); sid in stale && stale[sid] == w
    {
      var k :| 0 <= k < |picked| && picked[k] == (sid, w);
    }
  }

  lemma LeaseLeases(s: State, s': State, t: ThreadId, step: Step)
    requires t in s.pcs && LeaseStep(s, s', t, step)
    ensures Leases(s, s', t)
  {
  }

  lemma ChildStepWorks(c: Config, s: State, s': State, t: ThreadId, step: Step)
    requires t in s.pcs && s.pcs[t].Holding? && s.pcs[t].w in s.pool.procs && ChildStep(c, s, s', t, step)
    ensures WorksOn(c, s, s', t)
  {
    ChildStepKeeps(c, s, s', t, step);
    ChildStepMovesOn(c, s, s', t, step);
  }

  lemma ChildStepKeeps(c: Config, s: State, s': State, t: ThreadId, step: Step)
    requires t in s.pcs && s.pcs[t].Holding? && s.pcs[t].w in s.pool.procs && ChildStep(c, s, s', t, step)
    ensures KeepsWorker(s, s', t) && s'.pool == s.pool.(procs := s'.pool.procs)
  {
  }

  lemma ChildStepMovesOn(c: Config, s: State, s': State, t: ThreadId, step: Step)
    requires t in s.pcs && s.pcs[t].Holding? && s.pcs[t].w in s.pool.procs && ChildStep(c, s, s', t, step)
    requires KeepsWorker(s, s', t)
    ensures MovesOn(c, s, s', s.pcs[t].stage, s'.pcs[t].stage, s.pool.procs[s.pcs[t].w])
  {
  }

  lemma SendWorks(c: Config, s: State, s': State, t: ThreadId)
    requires t in s.pcs && s.pcs[t].Holding? && s.pcs[t].w in s.pool.procs && SendStep(s, s', t)
    ensures WorksOn(c, s, s', t)
  {
  }

  lemma HolderDoes(c: Config, s: State, s': State, t: ThreadId, step: Step) returns (kind: Kind)
    requires t in s.pcs && s.pcs[t].Holding? && s.pcs[t].w in s.pool.procs && HolderStep(c, s, s', t, step)
    ensures Does(c, s, s', t, kind) && !kind.OfWorld?
  {
    kind := match step
      case BindSession => Binding
      case ExecuteEnd => Ending
      case CheckRecycle => Examining
      case _ => Returning;
  }

  lemma ReaperReaps(c: Config, s: State, s': State, t: ThreadId, step: Step)
    requires t in s.pcs && s.pool.idle <= s.pool.procs.Keys && ReaperStep(c, s, s', t, step)
    ensures Reaps(c, s, s', t)
  {
  }

  lemma WhatHappens(c: Config, s: State, s': State) returns (t: ThreadId, kind: Kind)
    requires Next(c, s, s')
    ensures Does(c, s, s', t, kind)
  {
    var step;
    t, step :| NextStep(c, s, s', t, step);
    if WorldStep(s, s', step) {
      return t, OfWorld;
    }
    if EntryStep(c, s, s', t, step) {
      EntryEnters(c, s, s', t, step);
      return t, Entering;
    }
    if LeaseStep(s, s', t, step) {
      LeaseLeases(s, s', t, step);
      return t, Leasing;
    }
    if s.pool.idle <= s.pool.procs.Keys && ReaperStep(c, s, s', t, step) {
      ReaperReaps(c, s, s', t, step);
      return t, Reaping;
    }
    if HolderStep(c, s, s', t, step) {
      kind := HolderDoes(c, s, s', t, step);
    } else if ChildStep(c, s, s', t, step) {
      ChildStepWorks(c, s, s', t, step);
      kind := Working;
    } else {
      SendWorks(c, s, s', t);
      kind := Working;
    }
  }

  lemma HappensAt(c: Config, run: seq<State>, i: nat) returns (t: ThreadId, kind: Kind)
    requires IsRun(c, run) && i + 1 < |run|
    ensures Does(c, run[i], run[i + 1], t, kind)
  {
    assert Follows(c, run, i);
    t, kind := WhatHappens(c, run[i], run[i + 1]);
  }

  // ---------- When workers were last given back ----------

  /** In this step thread t, which held w, lets go of it. */
  ghost predicate GivesBackBy(s: State, s': State, t: ThreadId, w: WorkerId) {
    t in s.pcs && t in s'.pcs && s.pcs[t].Holding? && s.pcs[t].w == w && !s'.pcs[t].Holding?
  }

  ghost predicate GivesBack(s: State, s': State, w: WorkerId) {
    exists t :: GivesBackBy(s, s', t, w)
  }

  /** When a lease on w last ended, or when the pool was built. */
  ghost function LastBack(run: seq<State>, i: nat, w: WorkerId): int
    requires i < |run|
  {
    if i == 0 then run[0].now
    else if GivesBack(run[i - 1], run[i], w) then run[i - 1].now
    else LastBack(run, i - 1, w)
  }

  lemma WorkerTimesStep(c: Config, s: State, s': State, t: ThreadId, kind: Kind, w: WorkerId)
    requires Does(c, s, s', t, kind) && !s'.pool.down
    ensures !s.pool.down
    ensures w in s.pool.lastActive ==>
              w in s'.pool.lastActive
              && s'.pool.lastActive[w] == if GivesBack(s, s', w) then s.now else s.pool.lastActive[w]
  {
    if kind.Returning? {
      assert GivesBackBy(s, s', t, s.pcs[t].w);
    }
  }

  /** The times that the pool keeps are those of the run. */
  lemma {:induction false} WorkerTimes(c: Config, run: seq<State>, i: nat, w: WorkerId)
    requires IsRun(c, run) && i < |run| && !run[i].pool.down && w in c.All()
    ensures w in run[i].pool.lastActive && run[i].pool.lastActive[w] == LastBack(run, i, w)
  {
    if i > 0 {
      var t, kind := HappensAt(c, run, i - 1);
      WorkerTimesStep(c, run[i - 1], run[i], t, kind, w);
      WorkerTimes(c, run, i - 1, w);
    }
  }

  // ---------- When sessions were last used ----------

  /** In this step thread t registers the session, or is done with a request for it. */
  ghost predicate UsesBy(s: State, s': State, t: ThreadId, sid: SessionId) {
    && t in s.pcs && t in s'.pcs && s.pcs[t].Holding? && s.pcs[t].job == Sticky(sid) && s'.pcs[t].Holding?
    && ((s.pcs[t].stage.Leased? && s'.pcs[t].stage.Bound?)
        || (s.pcs[t].stage.Finished? && s'.pcs[t].stage.Checking?))
  }

  ghost predicate Uses(s: State, s': State, sid: SessionId) {
    exists t :: UsesBy(s, s', t, sid)
  }

  /** When the session was last used; if never, when the pool was built. */
  ghost function LastUse(run: seq<State>, i: nat, sid: SessionId): int
    requires i < |run|
  {
    if i == 0 then run[0].now
    else if Uses(run[i - 1], run[i], sid) then run[i - 1].now
    else LastUse(run, i - 1, sid)
  }

  lemma SessionTimesStep(c: Config, s: State, s': State, t: ThreadId, kind: Kind, sid: SessionId)
    requires Does(c, s, s', t, kind) && sid in s'.pool.touched
    ensures Uses(s, s', sid) || sid in s.pool.touched
    ensures s'.pool.touched[sid] == if Uses(s, s', sid) then s.now else s.pool.touched[sid]
  {
    if (kind.Binding? || kind.Ending?) && s.pcs[t].job.Sticky? {
      assert UsesBy(s, s', t, s.pcs[t].job.sid);
    }
  }

  lemma {:induction false} SessionTimes(c: Config, run: seq<State>, i: nat, sid: SessionId)
    requires IsRun(c, run) && i < |run| && sid in run[i].pool.touched
    ensures run[i].pool.touched[sid] == LastUse(run, i, sid)
  {
    if i > 0 {
      var t, kind := HappensAt(c, run, i - 1);
      SessionTimesStep(c, run[i - 1], run[i], t, kind, sid);
      if !Uses(run[i - 1], run[i], sid) {
        SessionTimes(c, run, i - 1, sid);
      }
    }
  }

  // ---------- The two reapers ----------

  lemma ArmedStep(c: Config, s: State, s': State, u: ThreadId, kind: Kind, t: ThreadId)
    requires Does(c, s, s', u, kind) && t in s'.pcs && (s'.pcs[t].ReaperArmed? || s'.pcs[t].ExpiryArmed?)
    ensures t in s.pcs && (s.pcs[t] == s'.pcs[t] || (s.pcs[t] == Outside && s'.pcs[t].seen == s.now))
  {
  }

  /** The time that a reaper goes by is the one at which it began its round. */
  lemma {:induction false} ClockWasRead(c: Config, run: seq<State>, i: nat, t: ThreadId) returns (k: nat)
    requires IsRun(c, run) && i < |run| && t in run[i].pcs
    requires run[i].pcs[t].ReaperArmed? || run[i].pcs[t].ExpiryArmed?
    ensures k < i && t in run[k].pcs && run[k].pcs[t] == Outside && run[i].pcs[t].seen == run[k].now
    ensures forall j | k < j <= i :: t in run[j].pcs && run[j].pcs[t] == run[i].pcs[t]
  {
    var u, kind := HappensAt(c, run, i - 1);
    ArmedStep(c, run[i - 1], run[i], u, kind, t);
    if run[i - 1].pcs[t] == run[i].pcs[t] {
      k := ClockWasRead(c, run, i - 1, t);
    } else {
      k := i - 1;
    }
  }

  /** The idle reaper takes exactly the idle workers with a live child whose last lease ended, or which
      were built, at least the TTL before the time that the reaper goes by. */
  lemma EvictsExactlyTheExpired(c: Config, run: seq<State>, i: nat, t: ThreadId)
    requires IsRun(c, run) && i + 1 < |run| && t in run[i].pcs && run[i].pcs[t].ReaperArmed?
    requires t in run[i + 1].pcs && run[i + 1].pcs[t] != run[i].pcs[t]
    ensures var s, taken := run[i], Holds(run[i + 1].pcs[t]);
            && (forall w :: w in taken <==> w in s.pool.idle && w in s.pool.procs && s.pool.procs[w].alive
                                            && LastBack(run, i, w) + c.idleTtl <= s.pcs[t].seen)
            && run[i + 1].pool.idle == s.pool.idle - taken
  {
    RunHasInv(c, run, i);
    var u, kind := HappensAt(c, run, i);
    forall w | w in run[i].pool.idle
      ensures w in run[i].pool.lastActive && run[i].pool.lastActive[w] == LastBack(run, i, w)
    {
      WorkerTimes(c, run, i, w);
    }
  }

  /** The session reaper picks exactly the tracked sessions whose last use was at least the TTL before
      the time that it goes by, each with the worker it is on. */
  lemma ExpiresExactlyTheUnused(c: Config, run: seq<State>, i: nat, t: ThreadId)
    requires IsRun(c, run) && i + 1 < |run| && t in run[i].pcs && run[i].pcs[t].ExpiryArmed?
    requires t in run[i + 1].pcs && run[i + 1].pcs[t] != run[i].pcs[t]
    ensures run[i + 1].pcs[t].NextExpiry? && run[i + 1].pool == run[i].pool
    ensures var s := run[i];
            forall sid, w :: (sid, w) in run[i + 1].pcs[t].rest
                             <==> sid in s.pool.active && s.pool.active[sid] == w
                                  && LastUse(run, i, sid) + c.sessionTtl <= s.pcs[t].seen
  {
    RunHasInv(c, run, i);
    var u, kind := HappensAt(c, run, i);
    forall sid | sid in run[i].pool.active
      ensures sid in run[i].pool.touched && run[i].pool.touched[sid] == LastUse(run, i, sid)
    {
      SessionTimes(c, run, i, sid);
    }
  }

  // ---------- How a session ends ----------

  /** Thread t ends the session: by resetting it, as the session reaper behind its lease, or because it
      finds the child dead when it gives the session's worker back. */
  ghost predicate EndsBy(s: State, s': State, t: ThreadId, sid: SessionId) {
    && t in s.pcs && t in s'.pcs && sid in s.pool.active
    && (|| (s.pcs[t].Outside? && s'.pcs[t].Asking? && s'.pcs[t].job == Reset(sid))
        || (s.pcs[t].Dropping? && s.pcs[t].sid == sid)
        || (s.pcs[t].Holding? && s.pcs[t].stage.Checking? && s.pcs[t].w == s.pool.active[sid]
            && s.pcs[t].w in s.pool.procs && !s.pool.procs[s.pcs[t].w].alive))
  }

  ghost predicate EndsSession(s: State, s': State, sid: SessionId) {
    exists t :: EndsBy(s, s', t, sid)
  }

  lemma EndingStep(c: Config, s: State, s': State, t: ThreadId, kind: Kind, sid: SessionId)
    requires MapsAgree(c, s.pool) && Does(c, s, s', t, kind) && sid in s.pool.active && sid !in s'.pool.active
    ensures EndsSession(s, s', sid)
  {
    assert kind.Examining? ==> (On(s.pool, s.pcs[t].w, sid) ==> s.pool.active[sid] == s.pcs[t].w);
    assert EndsBy(s, s', t, sid);
  }

  /** Nothing else ever drops a session. */
  lemma SessionsEndOnlySo(c: Config, run: seq<State>, i: nat, sid: SessionId)
    requires IsRun(c, run) && i + 1 < |run| && sid in run[i].pool.active && sid !in run[i + 1].pool.active
    ensures EndsSession(run[i], run[i + 1], sid)
  {
    RunHasInv(c, run, i);
    var t, kind := HappensAt(c, run, i);
    EndingStep(c, run[i], run[i + 1], t, kind, sid);
  }

  lemma DroppingStep(c: Config, s: State, s': State, u: ThreadId, kind: Kind, t: ThreadId)
    requires Does(c, s, s', u, kind) && t in s'.pcs && s'.pcs[t].Dropping?
    ensures t in s.pcs
    ensures s.pcs[t] == s'.pcs[t]
            || (s.pcs[t].Holding? && s.pcs[t].stage.Handing? && s.pcs[t].job == Expire(s'.pcs[t].sid, s'.pcs[t].rest))
  {
  }

  /** The session reaper drops a session only after it had leased a worker for it. */
  lemma {:induction false} DropsOnlyAfterLease(c: Config, run: seq<State>, i: nat, t: ThreadId) returns (k: nat)
    requires IsRun(c, run) && i < |run| && t in run[i].pcs && run[i].pcs[t].Dropping?
    ensures k < i && t in run[k].pcs && run[k].pcs[t].Holding? && run[k].pcs[t].stage.Handing?
    ensures run[k].pcs[t].job == Expire(run[i].pcs[t].sid, run[i].pcs[t].rest)
  {
    var u, kind := HappensAt(c, run, i - 1);
    DroppingStep(c, run[i - 1], run[i], u, kind, t);
    if run[i - 1].pcs[t] == run[i].pcs[t] {
      k := DropsOnlyAfterLease(c, run, i - 1, t);
    } else {
      k := i - 1;
    }
  }

  // ---------- Recycling ----------

  /** The check before recycling tells whether some session is on the worker; a dead worker is handed
      back at once, and then no session is on it. */
  lemma CheckTellsOfSessions(c: Config, run: seq<State>, i: nat, t: ThreadId)
    requires IsRun(c, run) && i + 1 < |run| && t in run[i].pcs && run[i].pcs[t].Holding?
    requires run[i].pcs[t].stage.Checking? && t in run[i + 1].pcs && run[i + 1].pcs[t] != run[i].pcs[t]
    ensures var s, s', w := run[i], run[i + 1], run[i].pcs[t].w;
            && s'.pcs[t].Holding? && s'.pcs[t].w == w && w in s.pool.procs
            && if s.pool.procs[w].alive
               then s'.pcs[t].stage == Checked(exists sid :: sid in s.pool.active && s.pool.active[sid] == w)
               else s'.pcs[t].stage == Handing && forall sid | sid in s'.pool.active :: s'.pool.active[sid] != w
  {
    RunHasInv(c, run, i);
    var u, kind := HappensAt(c, run, i);
    assert Examines(run[i], run[i + 1], t);
    CheckSeesMaps(c, run[i].pool, run[i].pcs[t].w);
  }

  lemma CheckSeesMaps(c: Config, p: Pool, w: WorkerId)
    requires MapsAgree(c, p) && w in p.procs
    ensures var (p', has) := CheckSessions(p, w);
            if p.procs[w].alive then has <==> exists sid :: sid in p.active && p.active[sid] == w
            else forall sid | sid in p'.active :: p'.active[sid] != w
  {
    assert forall sid :: On(p, w, sid) <==> sid in p.active && p.active[sid] == w;
    ClearKeepsMaps(c, p, w);
    if w in p.bound {
      var sid :| sid in p.bound[w];
      assert On(p, w, sid);
    }
  }

  /** A worker with a live child goes on to be recycled exactly if the check found no session on it and
      the child has answered max_tasks requests. */
  lemma RecycledExactlyIfWorn(c: Config, run: seq<State>, i: nat, t: ThreadId)
    requires IsRun(c, run) && i + 1 < |run| && t in run[i].pcs && run[i].pcs[t].Holding?
    requires run[i].pcs[t].stage.Checked? && t in run[i + 1].pcs && run[i + 1].pcs[t] != run[i].pcs[t]
    ensures var s, pc', w := run[i], run[i + 1].pcs[t], run[i].pcs[t].w;
            && w in s.pool.procs && pc'.Holding? && pc'.w == w && (pc'.stage.Recycling? || pc'.stage.Handing?)
            && (s.pool.procs[w].alive ==>
                  (pc'.stage.Recycling? <==> !s.pcs[t].stage.hasSessions && s.pool.procs[w].answered >= c.maxTasks))
  {
    var u, kind := HappensAt(c, run, i);
    assert WorksOn(c, run[i], run[i + 1], t);
    CheckedIsQuiet(c, run, i, t);
  }

  lemma CheckedIsQuiet(c: Config, run: seq<State>, i: nat, t: ThreadId)
    requires IsRun(c, run) && i < |run| && t in run[i].pcs && run[i].pcs[t].Holding? && run[i].pcs[t].stage.Checked?
    requires run[i].pcs[t].w in run[i].pool.procs
    ensures var q := run[i].pool.procs[run[i].pcs[t].w]; q.alive ==> q.tasks == q.answered
  {
    RunHasInv(c, run, i);
    assert PipesOk(run[i].pool.procs[run[i].pcs[t].w], run[i].pcs[t].stage);
  }

  // ---------- Waiting ----------

  /** A thread begins to wait only before its deadline, while the pool is up and has nothing for it. */
  lemma WaitsOnlyInTime(c: Config, run: seq<State>, i: nat, t: ThreadId)
    requires IsRun(c, run) && i + 1 < |run| && t in run[i].pcs && !run[i].pcs[t].Waiting?
    requires t in run[i + 1].pcs && run[i + 1].pcs[t].Waiting?
    ensures var s, pc' := run[i], run[i + 1].pcs[t];
            !s.pool.down && !Available(s.pool, pc'.want) && s.now < pc'.deadline
  {
    var u, kind := HappensAt(c, run, i);
  }

  /** A thread that asks for a worker and leaves without one was late or met a shutdown. */
  lemma GivesUpOnlyLate(c: Config, run: seq<State>, i: nat, t: ThreadId)
    requires IsRun(c, run) && i + 1 < |run| && t in run[i].pcs && run[i].pcs[t].Asking? && t in run[i + 1].pcs
    requires run[i + 1].pcs[t] != run[i].pcs[t] && !run[i + 1].pcs[t].Waiting? && !run[i + 1].pcs[t].Holding?
    ensures run[i].pool.down || (!Available(run[i].pool, run[i].pcs[t].want) && run[i].pcs[t].deadline <= run[i].now)
    ensures !run[i + 1].pcs[t].Dropping?
  {
    var u, kind := HappensAt(c, run, i);
  }
}
