/** The compute service's process pool as a transition system.

    Each step is one block of code that the pool's lock makes atomic, or one unlocked
    action between two such blocks: a kill, a launch, a frame sent or read.  A child can
    also act by itself, and time can pass, between any two steps. */
module PoolProtocol {
  import opened PoolState

  type ThreadId = nat

  /** Why a thread wants a worker. */
  datatype Job =
    | Isolated
    | Sticky(sid: SessionId)
    | Reset(sid: SessionId)
    | Expire(sid: SessionId, rest: seq<(SessionId, WorkerId)>)

  datatype Want = AnyWorker | This(w: WorkerId)

  datatype Reason = ToExecute | ToRecycle

  /** The failures that `execute` answers with a code. */
  datatype Code = WORKER_SPAWN_FAILED | WORKER_PIPE_BROKEN | EXECUTION_TIMEOUT | WORKER_CRASHED | EMPTY_RESPONSE

  /** What `execute` comes to: the child's answer, a failure, or an exception. */
  datatype Result = Answered(frame: Frame) | Failed(code: Code) | Raised

  /** How far the holder of a leased worker has come. */
  datatype Stage =
    | Leased
    | Bound
    | Launching(why: Reason)
    | Handshaking(why: Reason)
    | Spawned(why: Reason)
    | Sending
    | Awaiting(ticket: nat)
    | Finished(asked: nat, result: Result)
    | Checking
    | Checked(hasSessions: bool)
    | Recycling
    | Handing

  datatype PC =
    | Outside
    | Admitted(job: Job, deadline: int)
    | Asking(want: Want, job: Job, deadline: int)
    | Waiting(want: Want, job: Job, deadline: int)
    | Holding(w: WorkerId, job: Job, stage: Stage)
    | ReaperArmed(seen: int)
    | Evicting(todo: seq<WorkerId>, stale: set<WorkerId>)
    | ExpiryArmed(seen: int)
    | NextExpiry(rest: seq<(SessionId, WorkerId)>)
    | Dropping(sid: SessionId, rest: seq<(SessionId, WorkerId)>)

  datatype State = State(pool: Pool, now: int, ticket: nat, pcs: map<ThreadId, PC>)

  /** The workers that a thread has taken out of the idle set and not yet given up. */
  ghost function Holds(pc: PC): set<WorkerId> {
    match pc
    case Holding(w, _, _) => {w}
    case Evicting(_, stale) => stale
    case _ => {}
  }

  /** `notify_all`: every waiter has to look again. */
  function Wake(pc: PC): PC {
    if pc.Waiting? then Asking(pc.want, pc.job, pc.deadline) else pc
  }

  ghost function WakeAll(pcs: map<ThreadId, PC>): map<ThreadId, PC> {
    map t | t in pcs :: Wake(pcs[t])
  }

  function AfterNoLease(job: Job): PC {
    if job.Expire? then NextExpiry(job.rest) else Outside
  }

  function AfterRelease(job: Job): PC {
    if job.Expire? then Dropping(job.sid, job.rest) else Outside
  }

  ghost predicate Available(p: Pool, want: Want) {
    match want
    case AnyWorker => p.idle != {}
    case This(w) => w in p.idle
  }

  ghost predicate Init(c: Config, s: State) {
    FreshPool(c, s.pool, s.now) && forall t | t in s.pcs :: s.pcs[t] == Outside
  }

  datatype Step =
    // FormulaProcessPool.execute
    | Begin(job: Job, deadline: int)
    | Route
    // lease_any and lease_specific
    | LeaseGrant(w: WorkerId)
    | LeaseWait
    | LeaseRefuse
    | LeaseTimeout
    // the rest of execute and of the other lease holders
    | BindSession
    | ExecuteStart
    | LaunchOk
    | LaunchFail
    | HandshakeOk
    | HandshakeEof
    | HandshakeFail
    | SpawnCheck
    | Send
    | SendBroken
    | SendRaise
    | ReadAnswer
    | ReadFail(code: Code)
    | ReadRaise
    | ExecuteEnd
    // release_worker
    | CheckRecycle
    | DecideRecycle
    | RecycleKill
    | HandBack
    // reset_session, _evict_stale_sessions
    | ResetBegin(sid: SessionId, deadline: int)
    | ExpiryBegin
    | ExpiryCollect(picked: seq<(SessionId, WorkerId)>)
    | ExpiryNext
    | ExpiryDrop
    // _evict_idle_workers
    | ReaperBegin
    | ReaperCollect(victims: seq<WorkerId>)
    | ReaperKill
    | ReaperReadd
    | Shutdown
    // the children and the clock
    | ChildReady(w: WorkerId)
    | ChildAnswer(w: WorkerId)
    | ChildCloses(w: WorkerId)
    | ChildDies(w: WorkerId)
    | Tick(later: int)

  /** Thread t moves to pc and nothing else changes. */
  ghost predicate Moves(s: State, s': State, t: ThreadId, pc: PC) {
    t in s.pcs && s' == s.(pcs := s.pcs[t := pc])
  }

  ghost predicate MovesWith(s: State, s': State, t: ThreadId, pc: PC, pool: Pool) {
    t in s.pcs && s' == s.(pcs := s.pcs[t := pc], pool := pool)
  }

  /** Thread t holds a worker at the given stage. */
  ghost predicate At(s: State, t: ThreadId, stage: Stage) {
    && t in s.pcs && s.pcs[t].Holding? && s.pcs[t].stage == stage
    && s.pcs[t].w in s.pool.procs
  }

  /** Thread t goes on to the next stage with the worker it holds, leaving it as q. */
  ghost predicate Works(s: State, s': State, t: ThreadId, next: Stage, q: Proc) {
    && t in s.pcs && s.pcs[t].Holding?
    && s' == s.(pcs := s.pcs[t := s.pcs[t].(stage := next)],
                pool := s.pool.(procs := s.pool.procs[s.pcs[t].w := q]))
  }

  ghost predicate EntryStep(c: Config, s: State, s': State, t: ThreadId, step: Step)
    requires t in s.pcs
  {
    var p := s.pool;
    match step
    case Begin(job, deadline) =>
      && s.pcs[t].Outside? && !p.down && p.workers != []
      && (job.Isolated? || job.Sticky?)
      && Moves(s, s', t, Admitted(job, deadline))
    case Route =>
      && s.pcs[t].Admitted?
      && var job := s.pcs[t].job;
         var want := if job.Sticky? && p.workers != []
                     then This(p.workers[Slot(c.hash(job.sid), |p.workers|)]) else AnyWorker;
         Moves(s, s', t, Asking(want, job, s.pcs[t].deadline))
    case ResetBegin(sid, deadline) =>
      && s.pcs[t].Outside?
      && MovesWith(s, s', t,
                   if sid in p.active then Asking(This(p.active[sid]), Reset(sid), deadline) else Outside,
                   Unbind(p, sid))
    case ExpiryBegin =>
      s.pcs[t].Outside? && !p.down && Moves(s, s', t, ExpiryArmed(s.now))
    case ExpiryCollect(picked) =>
      && s.pcs[t].ExpiryArmed?
      && var stale := StaleSessions(p, c.sessionTtl, s.pcs[t].seen);
         && (forall i | 0 <= i < |picked| :: picked[i].0 in stale && picked[i].1 == stale[picked[i].0])
         && (forall sid | sid in stale :: (sid, stale[sid]) in picked)
         && Moves(s, s', t, NextExpiry(picked))
    case ExpiryNext =>
      && s.pcs[t].NextExpiry?
      && var rest := s.pcs[t].rest;
         Moves(s, s', t, if rest == [] then Outside
                         else Asking(This(rest[0].1), Expire(rest[0].0, rest[1..]), s.now + 2))
    case ExpiryDrop =>
      s.pcs[t].Dropping? && MovesWith(s, s', t, NextExpiry(s.pcs[t].rest), Unbind(p, s.pcs[t].sid))
    case _ => false
  }

  ghost predicate LeaseStep(s: State, s': State, t: ThreadId, step: Step)
    requires t in s.pcs
  {
    var p, pc := s.pool, s.pcs[t];
    match step
    case LeaseGrant(w) =>
      && pc.Asking? && !p.down && w in p.idle && (pc.want == AnyWorker || pc.want == This(w))
      && MovesWith(s, s', t, Holding(w, pc.job, Leased), Lease(p, w))
    case LeaseWait =>
      && pc.Asking? && !p.down && !Available(p, pc.want) && s.now < pc.deadline
      && Moves(s, s', t, Waiting(pc.want, pc.job, pc.deadline))
    case LeaseRefuse =>
      && pc.Asking? && (p.down || (!Available(p, pc.want) && pc.deadline <= s.now))
      && Moves(s, s', t, AfterNoLease(pc.job))
    case LeaseTimeout =>
      pc.Waiting? && pc.deadline <= s.now && Moves(s, s', t, Wake(pc))
    case _ => false
  }

  /** Steps in which the holder of a worker touches only that worker's child. */
  ghost predicate ChildStep(c: Config, s: State, s': State, t: ThreadId, step: Step)
    requires t in s.pcs && s.pcs[t].Holding? && s.pcs[t].w in s.pool.procs
  {
    var stage, q := s.pcs[t].stage, s.pool.procs[s.pcs[t].w];
    match step
    case ExecuteStart =>
      stage.Bound? && Works(s, s', t, if q.alive then Sending else Launching(ToExecute), q)
    case LaunchOk =>
      stage.Launching? && Works(s, s', t, Handshaking(stage.why), q.Launched())
    case LaunchFail =>
      stage.Launching? && Works(s, s', t, Spawned(stage.why), q.Killed())
    case HandshakeOk =>
      && stage.Handshaking? && q.outbox != []
      && Works(s, s', t, Spawned(stage.why), q.(outbox := q.outbox[1..], tasks := 0))
    case HandshakeEof =>
      && stage.Handshaking? && (!q.alive || (!q.open && q.outbox == []))
      && Works(s, s', t, Spawned(stage.why), q.(tasks := 0))
    case HandshakeFail =>
      stage.Handshaking? && Works(s, s', t, Spawned(stage.why), q.Killed())
    case SpawnCheck =>
      && stage.Spawned?
      && Works(s, s', t, if stage.why.ToRecycle? then Handing
                         else if q.alive then Sending else Finished(s.ticket, Failed(WORKER_SPAWN_FAILED)), q)
    case SendBroken =>
      stage.Sending? && Works(s, s', t, Finished(s.ticket, Failed(WORKER_PIPE_BROKEN)), q.Killed())
    case SendRaise =>
      stage.Sending? && Works(s, s', t, Finished(s.ticket, Raised), q)
    case ReadAnswer =>
      && stage.Awaiting? && q.outbox != []
      && Works(s, s', t, Finished(stage.ticket, Answered(q.outbox[0])),
               q.(outbox := q.outbox[1..], tasks := q.tasks + 1))
    case ReadFail(code) =>
      && stage.Awaiting? && (code.EXECUTION_TIMEOUT? || code.WORKER_CRASHED? || code.EMPTY_RESPONSE?)
      && Works(s, s', t, Finished(stage.ticket, Failed(code)), q.Killed())
    case ReadRaise =>
      // The handler of a timeout looks at a process that a shutdown has taken away.
      stage.Awaiting? && s.pool.down && !q.alive && Works(s, s', t, Finished(stage.ticket, Raised), q)
    case DecideRecycle =>
      && stage.Checked?
      && Works(s, s', t, if !stage.hasSessions && q.tasks >= c.maxTasks then Recycling else Handing, q)
    case RecycleKill =>
      stage.Recycling? && Works(s, s', t, Launching(ToRecycle), q.Killed())
    case _ => false
  }

  /** A request is written: it carries a ticket that no earlier request had. */
  ghost predicate SendStep(s: State, s': State, t: ThreadId)
    requires t in s.pcs && s.pcs[t].Holding? && s.pcs[t].w in s.pool.procs
  {
    && At(s, t, Sending)
    && var q := s.pool.procs[s.pcs[t].w];
       var q' := if q.alive then q.(inbox := q.inbox + [s.ticket]) else q;
       && Works(s, s'.(ticket := s.ticket), t, Awaiting(s.ticket), q')
       && s'.ticket == s.ticket + 1
  }

  ghost predicate HolderStep(c: Config, s: State, s': State, t: ThreadId, step: Step)
    requires t in s.pcs && s.pcs[t].Holding? && s.pcs[t].w in s.pool.procs
  {
    var p, w, job, stage := s.pool, s.pcs[t].w, s.pcs[t].job, s.pcs[t].stage;
    match step
    case BindSession =>
      && stage.Leased?
      && MovesWith(s, s', t, Holding(w, job, Bound), if job.Sticky? then Bind(p, job.sid, w, s.now) else p)
    case ExecuteEnd =>
      // Only the session reaper kills the worker itself, when execute raised.
      && stage.Finished?
      && MovesWith(s, s', t, Holding(w, job, Checking),
                   if job.Sticky? then Touch(p, job.sid, s.now)
                   else if job.Expire? && stage.result.Raised? then Kill(p, w) else p)
    case CheckRecycle =>
      && stage.Checking?
      && var (p', has) := CheckSessions(p, w);
         MovesWith(s, s', t, Holding(w, job, if p.procs[w].alive then Checked(has) else Handing), p')
    case HandBack =>
      && stage.Handing?
      && s' == s.(pool := GiveBack(p, w, s.now), pcs := WakeAll(s.pcs)[t := AfterRelease(job)])
    case _ => false
  }

  ghost predicate ReaperStep(c: Config, s: State, s': State, t: ThreadId, step: Step)
    requires t in s.pcs && s.pool.idle <= s.pool.procs.Keys
  {
    var p, pc := s.pool, s.pcs[t];
    match step
    case ReaperBegin =>
      pc.Outside? && !p.down && Moves(s, s', t, ReaperArmed(s.now))
    case ReaperCollect(victims) =>
      && pc.ReaperArmed?
      && var stale := StaleWorkers(p, c.idleTtl, pc.seen);
         && (forall w :: w in victims <==> w in stale)
         && MovesWith(s, s', t, if stale == {} then Outside else Evicting(victims, stale),
                      p.(idle := p.idle - stale))
    case ReaperKill =>
      && pc.Evicting? && pc.todo != [] && pc.todo[0] in p.procs
      && MovesWith(s, s', t, Evicting(pc.todo[1..], pc.stale), Kill(p, pc.todo[0]))
    case ReaperReadd =>
      && pc.Evicting? && pc.todo == []
      && s' == s.(pool := Readd(p, pc.stale), pcs := WakeAll(s.pcs)[t := Outside])
    case Shutdown =>
      && pc.Outside?
      && s' == s.(pool := TakeDown(p), pcs := if p.down then s.pcs else WakeAll(s.pcs))
    case _ => false
  }

  /** What happens without any thread of the pool: children act and time passes. */
  ghost predicate WorldStep(s: State, s': State, step: Step) {
    match step
    case ChildReady(w) =>
      && w in s.pool.procs && s.pool.procs[w].alive && s.pool.procs[w].open && !s.pool.procs[w].started
      && var q := s.pool.procs[w];
         s' == s.(pool := s.pool.(procs := s.pool.procs[w := q.(started := true, outbox := q.outbox + [Ready])]))
    case ChildAnswer(w) =>
      && w in s.pool.procs && s.pool.procs[w].alive && s.pool.procs[w].open
      && s.pool.procs[w].started && s.pool.procs[w].inbox != []
      && var q := s.pool.procs[w];
         s' == s.(pool := s.pool.(procs := s.pool.procs[w := q.(inbox := q.inbox[1..],
                                                                outbox := q.outbox + [Answer(q.inbox[0])],
                                                                answered := q.answered + 1)]))
    case ChildCloses(w) =>
      && w in s.pool.procs
      && s' == s.(pool := s.pool.(procs := s.pool.procs[w := s.pool.procs[w].(open := false)]))
    case ChildDies(w) =>
      w in s.pool.procs && s' == s.(pool := Kill(s.pool, w))
    case Tick(later) =>
      s.now <= later && s' == s.(now := later)
    case _ => false
  }

  ghost predicate ThreadStep(c: Config, s: State, s': State, t: ThreadId, step: Step) {
    && t in s.pcs
    && (|| EntryStep(c, s, s', t, step)
        || LeaseStep(s, s', t, step)
        || (s.pcs[t].Holding? && s.pcs[t].w in s.pool.procs
            && (|| ChildStep(c, s, s', t, step)
                || (step.Send? && SendStep(s, s', t))
                || HolderStep(c, s, s', t, step)))
        || (s.pool.idle <= s.pool.procs.Keys && ReaperStep(c, s, s', t, step)))
  }

  ghost predicate NextStep(c: Config, s: State, s': State, t: ThreadId, step: Step) {
    WorldStep(s, s', step) || ThreadStep(c, s, s', t, step)
  }

  ghost predicate Next(c: Config, s: State, s': State) {
    exists t, step :: NextStep(c, s, s', t, step)
  }

  ghost predicate Follows(c: Config, run: seq<State>, i: nat)
    requires i + 1 < |run|
  {
    Next(c, run[i], run[i + 1])
  }

  /** A run: a first state and any interleaving of steps. */
  ghost predicate IsRun(c: Config, run: seq<State>) {
    && run != [] && Init(c, run[0])
    && forall i: nat | i + 1 < |run| :: Follows(c, run, i)
  }
}
