/** Invariants of the pool protocol, each kept by every step of every interleaving. */
module PoolSafety {
  import opened PoolState
  import opened PoolProtocol

  ghost predicate RestOk(c: Config, rest: seq<(SessionId, WorkerId)>) {
    forall i | 0 <= i < |rest| :: rest[i].1 in c.All()
  }

  ghost predicate JobOk(c: Config, job: Job) {
    job.Expire? ==> RestOk(c, job.rest)
  }

  ghost predicate PcOk(c: Config, pc: PC) {
    match pc
    case Asking(want, job, _) => (want.This? ==> want.w in c.All()) && JobOk(c, job)
    case Waiting(want, job, _) => (want.This? ==> want.w in c.All()) && JobOk(c, job)
    case Admitted(job, _) => JobOk(c, job)
    case Holding(w, job, _) => w in c.All() && JobOk(c, job)
    case Evicting(todo, stale) => stale <= c.All() && forall w | w in todo :: w in stale
    case NextExpiry(rest) => RestOk(c, rest)
    case Dropping(_, rest) => RestOk(c, rest)
    case _ => true
  }

  ghost predicate Shaped(c: Config, s: State) {
    && c.Valid()
    && s.pool.procs.Keys == c.All()
    && s.pool.workers == (if s.pool.down then [] else c.workers)
    && s.pool.idle <= c.All()
    && (s.pool.down ==> s.pool.idle == {})
    && (forall t | t in s.pcs :: PcOk(c, s.pcs[t]))
  }

  /** No worker is idle and taken, or taken by two threads. */
  ghost predicate Exclusive(s: State) {
    && (forall t | t in s.pcs :: Holds(s.pcs[t]) !! s.pool.idle)
    && (forall t, u | t in s.pcs && u in s.pcs && t != u :: Holds(s.pcs[t]) !! Holds(s.pcs[u]))
  }

  ghost predicate Taken(s: State, w: WorkerId) {
    exists t :: t in s.pcs && w in Holds(s.pcs[t])
  }

  /** Until shutdown no worker gets lost. */
  ghost predicate Accounted(c: Config, s: State) {
    !s.pool.down ==> forall w | w in c.All() :: w in s.pool.idle || Taken(s, w)
  }

  ghost predicate NoLostWakeup(s: State) {
    forall t | t in s.pcs && s.pcs[t].Waiting? :: !s.pool.down && !Available(s.pool, s.pcs[t].want)
  }

  ghost predicate StickyPc(c: Config, p: Pool, pc: PC) {
    match pc
    case Admitted(job, _) => job.Sticky? ==> c.workers != []
    case Asking(want, job, _) =>
      job.Sticky? ==> c.workers != [] && if want.This? then want.w == c.Target(job.sid) else p.down
    case Waiting(want, job, _) =>
      job.Sticky? ==> c.workers != [] && if want.This? then want.w == c.Target(job.sid) else p.down
    case Holding(w, job, _) => job.Sticky? ==> c.workers != [] && w == c.Target(job.sid)
    case _ => true
  }

  /** A thread that serves a shared session asks for, and holds, only the session's worker. */
  ghost predicate StickyRouting(c: Config, s: State) {
    forall t | t in s.pcs :: StickyPc(c, s.pool, s.pcs[t])
  }

  ghost predicate ToBeRecycled(stage: Stage) {
    match stage
    case Checked(has) => !has
    case Recycling => true
    case Launching(why) => why.ToRecycle?
    case Handshaking(why) => why.ToRecycle?
    case Spawned(why) => why.ToRecycle?
    case _ => false
  }

  /** A worker on its way through recycling has no tracked session. */
  ghost predicate RecycleClean(s: State) {
    forall t | t in s.pcs && s.pcs[t].Holding? && ToBeRecycled(s.pcs[t].stage) :: s.pcs[t].w !in s.pool.bound
  }

  /** The stages in which frames may be in flight. */
  ghost predicate Talking(stage: Stage) {
    stage.Handshaking? || stage.Awaiting?
  }

  ghost predicate Talks(s: State, t: ThreadId, w: WorkerId) {
    t in s.pcs && s.pcs[t].Holding? && s.pcs[t].w == w && Talking(s.pcs[t].stage)
  }

  /** What the pipes of a worker may hold while its holder is at the given stage. */
  ghost predicate PipesOk(q: Proc, stage: Stage) {
    match stage
    case Launching(_) => !q.alive
    case Handshaking(_) =>
      && q.inbox == [] && q.answered == 0
      && q.outbox == (if q.started then [Ready] else [])
    case Awaiting(k) =>
      && (|| (q.inbox == [k] && q.outbox == [])
          || (q.inbox == [] && q.outbox == [Answer(k)])
          || (!q.alive && q.inbox == [] && q.outbox == []))
      && (q.alive ==> (q.started || !q.open) && q.tasks + |q.outbox| == q.answered)
    case Sending => q.inbox == [] && q.outbox == [] && (q.alive ==> q.Quiet())
    case Finished(_, result) => if result.Failed? then !q.alive else q.alive ==> q.Quiet()
    case _ => q.alive ==> q.Quiet()
  }

  ghost predicate Paired(s: State) {
    && (forall t | t in s.pcs && s.pcs[t].Holding? && s.pcs[t].w in s.pool.procs ::
          PipesOk(s.pool.procs[s.pcs[t].w], s.pcs[t].stage))
    && (forall w | w in s.pool.procs && s.pool.procs[w].alive ::
          s.pool.procs[w].Quiet() || exists t :: Talks(s, t, w))
  }

  /** An answer that execute hands on was given to the request that execute sent. */
  ghost predicate AnswersMatch(s: State) {
    forall t | t in s.pcs && s.pcs[t].Holding? && s.pcs[t].stage.Finished? ::
      s.pcs[t].stage.result.Answered? ==> s.pcs[t].stage.result.frame == Answer(s.pcs[t].stage.asked)
  }

  /** The idle reaper's victims are dead once killed, and after shutdown a child can be alive
      only on a worker that some thread still has to give back. */
  ghost predicate Mortal(s: State) {
    && (forall t, w | t in s.pcs && s.pcs[t].Evicting? && w in s.pcs[t].stale && w !in s.pcs[t].todo ::
          w in s.pool.procs ==> !s.pool.procs[w].alive)
    && (s.pool.down ==> forall w | w in s.pool.procs && s.pool.procs[w].alive :: Taken(s, w))
  }

  ghost predicate Inv(c: Config, s: State) {
    && Shaped(c, s) && Exclusive(s) && Accounted(c, s) && NoLostWakeup(s)
    && StickyRouting(c, s) && MapsAgree(c, s.pool) && RecycleClean(s)
    && Paired(s) && AnswersMatch(s) && Mortal(s)
  }

  // ---------- Steps that touch one child and the holder's stage ----------

  /** The local obligations of a step in which t goes on to stage `next` and leaves its worker as q. */
  ghost predicate Sound(s: State, t: ThreadId, next: Stage, q: Proc)
    requires t in s.pcs && s.pcs[t].Holding?
  {
    && (ToBeRecycled(next) ==> s.pcs[t].w !in s.pool.bound)
    && PipesOk(q, next)
    && (next.Finished? && next.result.Answered? ==> next.result.frame == Answer(next.asked))
  }

  lemma WorksKeepsOccupancy(c: Config, s: State, s': State, t: ThreadId, next: Stage, q: Proc)
    requires Shaped(c, s) && Exclusive(s) && Accounted(c, s) && t in s.pcs && s.pcs[t].Holding?
    requires Works(s, s'.(ticket := s.ticket), t, next, q)
    ensures Shaped(c, s') && Exclusive(s') && Accounted(c, s')
    ensures forall v :: Taken(s, v) ==> Taken(s', v)
  {
    assert forall u | u in s.pcs :: Holds(s'.pcs[u]) == Holds(s.pcs[u]);
    forall v | Taken(s, v) ensures Taken(s', v) {
      var u :| u in s.pcs && v in Holds(s.pcs[u]);
      assert v in Holds(s'.pcs[u]);
    }
  }

  lemma WorksKeepsMortal(c: Config, s: State, s': State, t: ThreadId, next: Stage, q: Proc)
    requires Shaped(c, s) && Exclusive(s) && Mortal(s) && t in s.pcs && s.pcs[t].Holding?
    requires Works(s, s'.(ticket := s.ticket), t, next, q)
    requires forall v :: Taken(s, v) ==> Taken(s', v)
    ensures Mortal(s')
  {
    var w := s.pcs[t].w;
    assert w in Holds(s.pcs[t]);
    assert Taken(s, w);
    assert forall u | u in s.pcs && s.pcs[u].Evicting? ::
             u != t && Holds(s.pcs[u]) == s.pcs[u].stale && w !in s.pcs[u].stale;
  }

  lemma WorksKeepsInv(c: Config, s: State, s': State, t: ThreadId, next: Stage, q: Proc)
    requires Inv(c, s) && t in s.pcs && s.pcs[t].Holding?
    requires Works(s, s'.(ticket := s.ticket), t, next, q) && Sound(s, t, next, q)
    ensures Inv(c, s')
  {
    WorksKeepsOccupancy(c, s, s', t, next, q);
    WorksKeepsMortal(c, s, s', t, next, q);
    WorksKeepsPaired(c, s, s', t, next, q);
    WorksKeepsRest(c, s, s', t, next, q);
    MapsFrame(c, s.pool, s'.pool);
  }

  lemma WorksKeepsRest(c: Config, s: State, s': State, t: ThreadId, next: Stage, q: Proc)
    requires NoLostWakeup(s) && StickyRouting(c, s) && RecycleClean(s) && AnswersMatch(s)
    requires Works(s, s'.(ticket := s.ticket), t, next, q) && Sound(s, t, next, q)
    ensures NoLostWakeup(s') && StickyRouting(c, s') && RecycleClean(s') && AnswersMatch(s')
  {
  }

  lemma MapsFrame(c: Config, p: Pool, p': Pool)
    requires MapsAgree(c, p) && p'.active == p.active && p'.bound == p.bound && p'.touched == p.touched
    ensures MapsAgree(c, p')
  {
    assert forall w, s :: On(p', w, s) <==> On(p, w, s);
  }

  lemma WorksKeepsPaired(c: Config, s: State, s': State, t: ThreadId, next: Stage, q: Proc)
    requires Shaped(c, s) && Exclusive(s) && Paired(s) && t in s.pcs && s.pcs[t].Holding?
    requires Works(s, s'.(ticket := s.ticket), t, next, q) && PipesOk(q, next)
    ensures Paired(s')
  {
    var w := s.pcs[t].w;
    assert w in Holds(s.pcs[t]);
    forall u | u in s'.pcs && s'.pcs[u].Holding? && s'.pcs[u].w in s'.pool.procs
      ensures PipesOk(s'.pool.procs[s'.pcs[u].w], s'.pcs[u].stage)
    {
      if u != t {
        assert s'.pcs[u].w in Holds(s.pcs[u]);
      }
    }
    forall v | v in s'.pool.procs && s'.pool.procs[v].alive
      ensures s'.pool.procs[v].Quiet() || exists u :: Talks(s', u, v)
    {
      if v == w {
        assert Talking(next) ==> Talks(s', t, w);
      } else if !s.pool.procs[v].Quiet() {
        var u :| Talks(s, u, v);
        assert Talks(s', u, v);
      }
    }
  }

  lemma ChildStepKeepsInv(c: Config, s: State, s': State, t: ThreadId, step: Step)
    requires Inv(c, s) && t in s.pcs && s.pcs[t].Holding? && s.pcs[t].w in s.pool.procs
    requires ChildStep(c, s, s', t, step)
    ensures Inv(c, s')
  {
    ChildStepIsSound(c, s, s', t, step);
    WorksKeepsInv(c, s, s', t, s'.pcs[t].stage, s'.pool.procs[s.pcs[t].w]);
  }

  lemma ChildStepIsSound(c: Config, s: State, s': State, t: ThreadId, step: Step)
    requires Paired(s) && RecycleClean(s) && AnswersMatch(s)
    requires t in s.pcs && s.pcs[t].Holding? && s.pcs[t].w in s.pool.procs && ChildStep(c, s, s', t, step)
    ensures t in s'.pcs && s'.pcs[t].Holding? && s.pcs[t].w in s'.pool.procs
    ensures Works(s, s'.(ticket := s.ticket), t, s'.pcs[t].stage, s'.pool.procs[s.pcs[t].w])
    ensures Sound(s, t, s'.pcs[t].stage, s'.pool.procs[s.pcs[t].w])
  {
    assert PipesOk(s.pool.procs[s.pcs[t].w], s.pcs[t].stage);
  }

  lemma SendKeepsInv(c: Config, s: State, s': State, t: ThreadId)
    requires Inv(c, s) && t in s.pcs && s.pcs[t].Holding? && s.pcs[t].w in s.pool.procs
    requires SendStep(s, s', t)
    ensures Inv(c, s')
  {
    var q := s.pool.procs[s.pcs[t].w];
    assert PipesOk(q, s.pcs[t].stage);
    WorksKeepsInv(c, s, s', t, s'.pcs[t].stage, s'.pool.procs[s.pcs[t].w]);
  }

  // ---------- Steps of a thread that holds no worker before or after ----------

  ghost predicate HandsFree(pc: PC) {
    !pc.Holding? && !pc.Evicting?
  }

  /** Only the session maps differ, and no worker gains its first session. */
  ghost predicate MapsOnly(p: Pool, p': Pool) {
    && p' == p.(active := p'.active, bound := p'.bound, touched := p'.touched)
    && p'.bound.Keys <= p.bound.Keys
  }

  /** Threads that hold workers are exactly where they were. */
  ghost predicate SameHolders(s: State, s': State) {
    && s'.pcs.Keys == s.pcs.Keys
    && forall u | u in s.pcs :: s'.pcs[u] == s.pcs[u] || (HandsFree(s.pcs[u]) && HandsFree(s'.pcs[u]))
  }

  lemma SameHoldersKeepPaired(s: State, s': State)
    requires Paired(s) && AnswersMatch(s) && SameHolders(s, s') && s'.pool.procs == s.pool.procs
    ensures Paired(s') && AnswersMatch(s')
  {
    forall w | w in s'.pool.procs && s'.pool.procs[w].alive && !s'.pool.procs[w].Quiet()
      ensures exists u :: Talks(s', u, w)
    {
      var u :| Talks(s, u, w);
      assert Talks(s', u, w);
    }
  }

  lemma FreeMoveKeepsInv(c: Config, s: State, s': State, t: ThreadId, pc: PC, p': Pool)
    requires Inv(c, s) && MovesWith(s, s', t, pc, p') && MapsOnly(s.pool, p') && MapsAgree(c, p')
    requires HandsFree(s.pcs[t]) && HandsFree(pc) && PcOk(c, pc) && StickyPc(c, p', pc)
    requires pc.Waiting? ==> !p'.down && !Available(p', pc.want)
    ensures Inv(c, s')
  {
    assert SameHolders(s, s');
    SameHoldersKeepPaired(s, s');
    SameHoldsKeepsOccupancy(c, s, s');
    FreeMoveKeepsRest(c, s, s', t, pc, p');
  }

  lemma FreeMoveKeepsRest(c: Config, s: State, s': State, t: ThreadId, pc: PC, p': Pool)
    requires Inv(c, s) && MovesWith(s, s', t, pc, p') && MapsOnly(s.pool, p')
    requires HandsFree(s.pcs[t]) && HandsFree(pc) && PcOk(c, pc) && StickyPc(c, p', pc)
    requires pc.Waiting? ==> !p'.down && !Available(p', pc.want)
    requires forall w :: Taken(s, w) <==> Taken(s', w)
    ensures Shaped(c, s') && NoLostWakeup(s') && StickyRouting(c, s') && RecycleClean(s') && Mortal(s')
  {
  }

  lemma SameHoldsKeepsOccupancy(c: Config, s: State, s': State)
    requires Exclusive(s) && Accounted(c, s)
    requires s'.pcs.Keys == s.pcs.Keys && s'.pool.idle == s.pool.idle && s'.pool.down == s.pool.down
    requires forall u | u in s.pcs :: Holds(s'.pcs[u]) == Holds(s.pcs[u])
    ensures Exclusive(s') && Accounted(c, s')
    ensures forall w :: Taken(s, w) <==> Taken(s', w)
  {
    forall w ensures Taken(s, w) <==> Taken(s', w) {
      if Taken(s, w) {
        var u :| u in s.pcs && w in Holds(s.pcs[u]);
        assert w in Holds(s'.pcs[u]);
      }
      if Taken(s', w) {
        var u :| u in s'.pcs && w in Holds(s'.pcs[u]);
        assert w in Holds(s.pcs[u]);
      }
    }
  }

  lemma EntryKeepsInv(c: Config, s: State, s': State, t: ThreadId, step: Step)
    requires Inv(c, s) && t in s.pcs && EntryStep(c, s, s', t, step)
    ensures Inv(c, s')
  {
    EntryMoves(s, s', t, step, c);
    EntryKeepsMaps(c, s, s', t, step);
    EntryIsOk(c, s, s', t, step);
    FreeMoveKeepsInv(c, s, s', t, s'.pcs[t], s'.pool);
  }

  lemma EntryIsOk(c: Config, s: State, s': State, t: ThreadId, step: Step)
    requires Shaped(c, s) && StickyRouting(c, s) && MapsAgree(c, s.pool) && t in s.pcs && EntryStep(c, s, s', t, step)
    ensures t in s'.pcs && PcOk(c, s'.pcs[t]) && StickyPc(c, s'.pool, s'.pcs[t])
  {
    assert PcOk(c, s.pcs[t]) && StickyPc(c, s.pool, s.pcs[t]);
  }

  /** The thread has free hands before and after, and at most the session maps have changed. */
  lemma EntryMoves(s: State, s': State, t: ThreadId, step: Step, c: Config)
    requires t in s.pcs && EntryStep(c, s, s', t, step)
    ensures t in s'.pcs && MovesWith(s, s', t, s'.pcs[t], s'.pool)
    ensures HandsFree(s.pcs[t]) && HandsFree(s'.pcs[t]) && !s'.pcs[t].Waiting?
  {
  }

  lemma EntryKeepsMaps(c: Config, s: State, s': State, t: ThreadId, step: Step)
    requires MapsAgree(c, s.pool) && t in s.pcs && EntryStep(c, s, s', t, step)
    ensures MapsOnly(s.pool, s'.pool) && MapsAgree(c, s'.pool)
  {
    if step.ResetBegin? {
      UnbindKeepsMaps(c, s.pool, step.sid);
    } else if step.ExpiryDrop? {
      UnbindKeepsMaps(c, s.pool, s.pcs[t].sid);
    }
  }

  lemma LeaseKeepsInv(c: Config, s: State, s': State, t: ThreadId, step: Step)
    requires Inv(c, s) && t in s.pcs && LeaseStep(s, s', t, step)
    ensures Inv(c, s')
  {
    if step.LeaseGrant? {
      GrantKeepsInv(c, s, s', t, step.w);
    } else {
      FreeMoveKeepsInv(c, s, s', t, s'.pcs[t], s.pool);
    }
  }

  /** Thread t takes the set g out of the idle set. */
  lemma TakeKeepsOccupancy(c: Config, s: State, s': State, t: ThreadId, g: set<WorkerId>)
    requires Exclusive(s) && Accounted(c, s) && t in s.pcs && s'.pcs.Keys == s.pcs.Keys
    requires Holds(s.pcs[t]) == {} && Holds(s'.pcs[t]) == g && g <= s.pool.idle
    requires forall u | u in s.pcs && u != t :: Holds(s'.pcs[u]) == Holds(s.pcs[u])
    requires s'.pool.idle == s.pool.idle - g && s'.pool.down == s.pool.down
    ensures Exclusive(s') && Accounted(c, s')
    ensures forall v :: Taken(s', v) <==> Taken(s, v) || v in g
  {
    forall v ensures Taken(s', v) <==> Taken(s, v) || v in g {
      if v in g {
        assert v in Holds(s'.pcs[t]);
      }
      if Taken(s, v) {
        var u :| u in s.pcs && v in Holds(s.pcs[u]);
        assert v in Holds(s'.pcs[u]);
      }
      if Taken(s', v) {
        var u :| u in s'.pcs && v in Holds(s'.pcs[u]);
        assert u != t ==> v in Holds(s.pcs[u]);
      }
    }
  }

  /** Thread t gives up everything it holds. */
  lemma GiveKeepsOccupancy(c: Config, s: State, s': State, t: ThreadId)
    requires Exclusive(s) && Accounted(c, s) && t in s.pcs && s'.pcs.Keys == s.pcs.Keys
    requires Holds(s'.pcs[t]) == {} && s'.pool.down == s.pool.down
    requires forall u | u in s.pcs && u != t :: Holds(s'.pcs[u]) == Holds(s.pcs[u])
    requires s'.pool.idle == if s.pool.down then s.pool.idle else s.pool.idle + Holds(s.pcs[t])
    ensures Exclusive(s') && Accounted(c, s')
    ensures forall v :: Taken(s', v) <==> Taken(s, v) && v !in Holds(s.pcs[t])
  {
    forall v ensures Taken(s', v) <==> Taken(s, v) && v !in Holds(s.pcs[t]) {
      if Taken(s, v) {
        var u :| u in s.pcs && v in Holds(s.pcs[u]);
        assert u != t ==> v in Holds(s'.pcs[u]);
      }
      if Taken(s', v) {
        var u :| u in s'.pcs && v in Holds(s'.pcs[u]);
        assert v in Holds(s.pcs[u]);
      }
    }
  }

  /** Children may have been killed, and no thread began to work with a worker. */
  ghost predicate OnlyKills(s: State, s': State) {
    && s'.pcs.Keys == s.pcs.Keys && s'.pool.procs.Keys == s.pool.procs.Keys
    && (forall u | u in s.pcs :: s'.pcs[u] == s.pcs[u] ||
          (!s'.pcs[u].Holding? && !(s.pcs[u].Holding? && Talking(s.pcs[u].stage))))
    && (forall v | v in s.pool.procs ::
          s'.pool.procs[v] == s.pool.procs[v] || s'.pool.procs[v] == s.pool.procs[v].Killed())
  }

  lemma OnlyKillsKeepsPaired(s: State, s': State)
    requires Paired(s) && AnswersMatch(s) && OnlyKills(s, s')
    ensures Paired(s') && AnswersMatch(s')
  {
    forall u | u in s'.pcs && s'.pcs[u].Holding? && s'.pcs[u].w in s'.pool.procs
      ensures PipesOk(s'.pool.procs[s'.pcs[u].w], s'.pcs[u].stage)
    {
      assert PipesOk(s.pool.procs[s.pcs[u].w], s.pcs[u].stage);
    }
    forall v | v in s'.pool.procs && s'.pool.procs[v].alive && !s'.pool.procs[v].Quiet()
      ensures exists u :: Talks(s', u, v)
    {
      var u :| Talks(s, u, v);
      assert Talks(s', u, v);
    }
  }

  lemma GrantKeepsInv(c: Config, s: State, s': State, t: ThreadId, w: WorkerId)
    requires Inv(c, s) && t in s.pcs && LeaseStep(s, s', t, LeaseGrant(w))
    ensures Inv(c, s')
  {
    TakeKeepsOccupancy(c, s, s', t, {w});
    GrantKeepsPaired(s, s', t, w);
    MapsFrame(c, s.pool, s'.pool);
    GrantKeepsRest(c, s, s', t, w);
  }

  lemma GrantKeepsRest(c: Config, s: State, s': State, t: ThreadId, w: WorkerId)
    requires Shaped(c, s) && NoLostWakeup(s) && StickyRouting(c, s) && RecycleClean(s) && Mortal(s)
    requires t in s.pcs && LeaseStep(s, s', t, LeaseGrant(w))
    ensures Shaped(c, s') && NoLostWakeup(s') && StickyRouting(c, s') && RecycleClean(s') && Mortal(s')
  {
    assert PcOk(c, s.pcs[t]) && StickyPc(c, s.pool, s.pcs[t]);
  }

  lemma GrantKeepsPaired(s: State, s': State, t: ThreadId, w: WorkerId)
    requires Paired(s) && Exclusive(s) && AnswersMatch(s)
    requires t in s.pcs && LeaseStep(s, s', t, LeaseGrant(w))
    ensures Paired(s') && AnswersMatch(s')
  {
    forall v | v in s'.pool.procs && s'.pool.procs[v].alive && !s'.pool.procs[v].Quiet()
      ensures v != w && exists u :: Talks(s', u, v)
    {
      var u :| Talks(s, u, v);
      assert v in Holds(s.pcs[u]);
      assert Talks(s', u, v);
    }
  }

  // ---------- Locked blocks of a thread that holds a worker ----------

  lemma MapsChangeKeepsInv(c: Config, s: State, s': State)
    requires Inv(c, s) && s' == s.(pool := s'.pool)
    requires s'.pool == s.pool.(active := s'.pool.active, bound := s'.pool.bound, touched := s'.pool.touched)
    requires MapsAgree(c, s'.pool) && RecycleClean(s')
    ensures Inv(c, s')
  {
    SameHoldersKeepPaired(s, s');
    SameHoldsKeepsOccupancy(c, s, s');
  }

  /** State s after its thread t has gone on to stage `next` and left its worker as q. */
  ghost function Worked(s: State, t: ThreadId, next: Stage, q: Proc): State
    requires t in s.pcs && s.pcs[t].Holding?
  {
    s.(pcs := s.pcs[t := s.pcs[t].(stage := next)],
       pool := s.pool.(procs := s.pool.procs[s.pcs[t].w := q]))
  }

  lemma BindKeepsInv(c: Config, s: State, s': State, t: ThreadId)
    requires Inv(c, s) && t in s.pcs && s.pcs[t].Holding? && s.pcs[t].w in s.pool.procs
    requires s.pcs[t].stage == Leased
    requires var w, job := s.pcs[t].w, s.pcs[t].job;
             MovesWith(s, s', t, Holding(w, job, Bound),
                       if job.Sticky? then Bind(s.pool, job.sid, w, s.now) else s.pool)
    ensures Inv(c, s')
  {
    var w, job := s.pcs[t].w, s.pcs[t].job;
    var s1 := Worked(s, t, Bound, s.pool.procs[w]);
    ReachesBound(c, s, s1, t);
    if job.Sticky? {
      assert StickyPc(c, s.pool, s.pcs[t]);
      StickyBindKeepsInv(c, s1, s', t, w, job.sid);
    } else {
      assert s' == s1;
    }
  }

  lemma ReachesBound(c: Config, s: State, s': State, t: ThreadId)
    requires Inv(c, s) && t in s.pcs && s.pcs[t].Holding? && s.pcs[t].w in s.pool.procs
    requires s.pcs[t].stage == Leased && s' == Worked(s, t, Bound, s.pool.procs[s.pcs[t].w])
    ensures Inv(c, s') && s'.pool == s.pool
  {
    BoundIsSound(s, t);
    WorksKeepsInv(c, s, s', t, Bound, s.pool.procs[s.pcs[t].w]);
    assert s.pool.procs[s.pcs[t].w := s.pool.procs[s.pcs[t].w]] == s.pool.procs;
  }

  lemma BoundIsSound(s: State, t: ThreadId)
    requires Paired(s) && t in s.pcs && s.pcs[t].Holding? && s.pcs[t].w in s.pool.procs
    requires s.pcs[t].stage == Leased
    ensures Sound(s, t, Bound, s.pool.procs[s.pcs[t].w])
  {
    assert PipesOk(s.pool.procs[s.pcs[t].w], s.pcs[t].stage);
  }

  lemma StickyBindKeepsInv(c: Config, s: State, s': State, t: ThreadId, w: WorkerId, sid: SessionId)
    requires Inv(c, s) && c.workers != [] && w == c.Target(sid)
    requires t in s.pcs && s.pcs[t].Holding? && s.pcs[t].w == w && s.pcs[t].stage == Bound
    requires s' == s.(pool := Bind(s.pool, sid, w, s.now))
    ensures Inv(c, s')
  {
    BindKeepsMaps(c, s.pool, sid, w, s.now);
    BindKeepsClean(s, s', t, w);
    MapsChangeKeepsInv(c, s, s');
  }

  /** Only the lease holder can register a session on a worker, and it is not recycling. */
  lemma BindKeepsClean(s: State, s': State, t: ThreadId, w: WorkerId)
    requires Exclusive(s) && RecycleClean(s) && s'.pcs == s.pcs
    requires t in s.pcs && s.pcs[t].Holding? && s.pcs[t].w == w && s.pcs[t].stage == Bound
    requires s'.pool.bound.Keys == s.pool.bound.Keys + {w}
    ensures RecycleClean(s')
  {
    assert w in Holds(s.pcs[t]);
    forall u | u in s.pcs && s.pcs[u].Holding? && ToBeRecycled(s.pcs[u].stage)
      ensures s.pcs[u].w !in s'.pool.bound
    {
      assert s.pcs[u].w in Holds(s.pcs[u]);
    }
  }

  lemma ExecuteEndKeepsInv(c: Config, s: State, s': State, t: ThreadId)
    requires Inv(c, s) && t in s.pcs && s.pcs[t].Holding? && s.pcs[t].w in s.pool.procs
    requires HolderStep(c, s, s', t, ExecuteEnd)
    ensures Inv(c, s')
  {
    var q := ChildAtEnd(s, t);
    var s1 := Worked(s, t, Checking, q);
    ReachesChecking(c, s, s1, t, q);
    EndIsCheckingAndTouch(c, s, s', t);
    if s.pcs[t].job.Sticky? {
      TouchedKeepsInv(c, s1, s', s.pcs[t].job.sid);
    }
  }

  ghost function ChildAtEnd(s: State, t: ThreadId): Proc
    requires t in s.pcs && s.pcs[t].Holding? && s.pcs[t].stage.Finished? && s.pcs[t].w in s.pool.procs
  {
    var q := s.pool.procs[s.pcs[t].w];
    if s.pcs[t].job.Expire? && s.pcs[t].stage.result.Raised? then q.Killed() else q
  }

  lemma EndIsCheckingAndTouch(c: Config, s: State, s': State, t: ThreadId)
    requires t in s.pcs && s.pcs[t].Holding? && s.pcs[t].w in s.pool.procs
    requires HolderStep(c, s, s', t, ExecuteEnd)
    ensures var s1 := Worked(s, t, Checking, ChildAtEnd(s, t));
            s' == if s.pcs[t].job.Sticky? then s1.(pool := Touch(s1.pool, s.pcs[t].job.sid, s.now)) else s1
  {
    assert s.pool.procs[s.pcs[t].w := s.pool.procs[s.pcs[t].w]] == s.pool.procs;
  }

  lemma ReachesChecking(c: Config, s: State, s': State, t: ThreadId, q: Proc)
    requires Inv(c, s) && t in s.pcs && s.pcs[t].Holding? && s.pcs[t].w in s.pool.procs
    requires s.pcs[t].stage.Finished? && s' == Worked(s, t, Checking, q)
    requires q == s.pool.procs[s.pcs[t].w] || q == s.pool.procs[s.pcs[t].w].Killed()
    ensures Inv(c, s')
  {
    assert PipesOk(s.pool.procs[s.pcs[t].w], s.pcs[t].stage);
    assert Sound(s, t, Checking, q);
    WorksKeepsInv(c, s, s', t, Checking, q);
  }

  lemma TouchedKeepsInv(c: Config, s: State, s': State, sid: SessionId)
    requires Inv(c, s) && s' == s.(pool := Touch(s.pool, sid, s.now))
    ensures Inv(c, s')
  {
    TouchKeepsMaps(c, s.pool, sid, s.now);
    MapsChangeKeepsInv(c, s, s');
  }

  lemma TouchKeepsMaps(c: Config, p: Pool, s: SessionId, now: int)
    requires MapsAgree(c, p)
    ensures MapsAgree(c, Touch(p, s, now))
  {
    assert forall w, x :: On(Touch(p, s, now), w, x) <==> On(p, w, x);
  }

  lemma CheckKeepsInv(c: Config, s: State, s': State, t: ThreadId)
    requires Inv(c, s) && t in s.pcs && s.pcs[t].Holding? && s.pcs[t].w in s.pool.procs
    requires HolderStep(c, s, s', t, CheckRecycle)
    ensures Inv(c, s')
  {
    var w := s.pcs[t].w;
    var q := s.pool.procs[w];
    assert PipesOk(q, s.pcs[t].stage);
    assert s.pool.procs[w := q] == s.pool.procs;
    var next := s'.pcs[t].stage;
    var s1 := Worked(s, t, next, q);
    WorksKeepsInv(c, s, s1, t, next, q);
    if q.alive {
      assert s' == s1;
    } else {
      ClearKeepsMaps(c, s.pool, w);
      MapsChangeKeepsInv(c, s1, s');
    }
  }

  lemma HandBackKeepsInv(c: Config, s: State, s': State, t: ThreadId)
    requires Inv(c, s) && t in s.pcs && s.pcs[t].Holding? && s.pcs[t].w in s.pool.procs
    requires s.pcs[t].stage == Handing
    requires s' == s.(pool := GiveBack(s.pool, s.pcs[t].w, s.now),
                      pcs := WakeAll(s.pcs)[t := AfterRelease(s.pcs[t].job)])
    ensures Inv(c, s')
  {
    HandBackKeepsHolders(c, s, s', t);
    HandBackKeepsRest(c, s, s', t);
  }

  lemma HandBackKeepsHolders(c: Config, s: State, s': State, t: ThreadId)
    requires Exclusive(s) && Accounted(c, s) && Paired(s) && AnswersMatch(s) && Mortal(s) && MapsAgree(c, s.pool)
    requires t in s.pcs && s.pcs[t].Holding? && s.pcs[t].w in s.pool.procs && s.pcs[t].stage == Handing
    requires s' == s.(pool := GiveBack(s.pool, s.pcs[t].w, s.now),
                      pcs := WakeAll(s.pcs)[t := AfterRelease(s.pcs[t].job)])
    ensures Exclusive(s') && Accounted(c, s') && Paired(s') && AnswersMatch(s') && Mortal(s') && MapsAgree(c, s'.pool)
  {
    HandBackKeepsOccupancy(c, s, s', t);
    HandBackFrame(c, s, s', t);
    OnlyKillsKeepsPaired(s, s');
    MapsFrame(c, s.pool, s'.pool);
  }

  lemma HandBackKeepsOccupancy(c: Config, s: State, s': State, t: ThreadId)
    requires Exclusive(s) && Accounted(c, s) && Mortal(s)
    requires t in s.pcs && s.pcs[t].Holding? && s.pcs[t].w in s.pool.procs && s.pcs[t].stage == Handing
    requires s' == s.(pool := GiveBack(s.pool, s.pcs[t].w, s.now),
                      pcs := WakeAll(s.pcs)[t := AfterRelease(s.pcs[t].job)])
    ensures Exclusive(s') && Accounted(c, s') && Mortal(s')
  {
    HandBackFrame(c, s, s', t);
    GiveKeepsOccupancy(c, s, s', t);
    MortalFrame(s, s');
  }

  /** Nobody but t is touched by its hand-back, except that waiters wake. */
  lemma HandBackFrame(c: Config, s: State, s': State, t: ThreadId)
    requires t in s.pcs && s.pcs[t].Holding? && s.pcs[t].w in s.pool.procs && s.pcs[t].stage == Handing
    requires s' == s.(pool := GiveBack(s.pool, s.pcs[t].w, s.now),
                      pcs := WakeAll(s.pcs)[t := AfterRelease(s.pcs[t].job)])
    ensures s'.pcs.Keys == s.pcs.Keys && Holds(s'.pcs[t]) == {}
    ensures forall u | u in s.pcs && u != t :: Holds(s'.pcs[u]) == Holds(s.pcs[u])
    ensures OnlyKills(s, s')
  {
  }

  lemma HandBackKeepsRest(c: Config, s: State, s': State, t: ThreadId)
    requires Shaped(c, s) && StickyRouting(c, s) && RecycleClean(s)
    requires t in s.pcs && s.pcs[t].Holding? && s.pcs[t].w in s.pool.procs
    requires s' == s.(pool := GiveBack(s.pool, s.pcs[t].w, s.now),
                      pcs := WakeAll(s.pcs)[t := AfterRelease(s.pcs[t].job)])
    ensures Shaped(c, s') && NoLostWakeup(s') && StickyRouting(c, s') && RecycleClean(s')
  {
    HandBackKeepsShape(c, s, s', t);
    assert forall u | u in s'.pcs :: !s'.pcs[u].Waiting?;
  }

  lemma HandBackKeepsShape(c: Config, s: State, s': State, t: ThreadId)
    requires Shaped(c, s) && StickyRouting(c, s) && t in s.pcs && s.pcs[t].Holding? && s.pcs[t].w in s.pool.procs
    requires s' == s.(pool := GiveBack(s.pool, s.pcs[t].w, s.now),
                      pcs := WakeAll(s.pcs)[t := AfterRelease(s.pcs[t].job)])
    ensures Shaped(c, s') && StickyRouting(c, s')
  {
    assert PcOk(c, s.pcs[t]);
    forall u | u in s.pcs && u != t
      ensures PcOk(c, s'.pcs[u]) && StickyPc(c, s'.pool, s'.pcs[u])
    {
      assert PcOk(c, s.pcs[u]) && StickyPc(c, s.pool, s.pcs[u]);
    }
  }

  /** No child came to life, no reaper moved, and live children stay accounted for. */
  lemma MortalFrame(s: State, s': State)
    requires Mortal(s) && s'.pool.procs.Keys == s.pool.procs.Keys
    requires forall w | w in s.pool.procs && s'.pool.procs[w].alive :: s.pool.procs[w].alive
    requires forall u | u in s'.pcs && s'.pcs[u].Evicting? :: u in s.pcs && s'.pcs[u] == s.pcs[u]
    requires s'.pool.down ==> forall w | w in s.pool.procs && s'.pool.procs[w].alive :: Taken(s', w)
    ensures Mortal(s')
  {
  }

  lemma HolderKeepsInv(c: Config, s: State, s': State, t: ThreadId, step: Step)
    requires Inv(c, s) && t in s.pcs && s.pcs[t].Holding? && s.pcs[t].w in s.pool.procs
    requires HolderStep(c, s, s', t, step)
    ensures Inv(c, s')
  {
    match step
    case BindSession => BindKeepsInv(c, s, s', t);
    case ExecuteEnd => ExecuteEndKeepsInv(c, s, s', t);
    case CheckRecycle => CheckKeepsInv(c, s, s', t);
    case HandBack => HandBackKeepsInv(c, s, s', t);
    case _ =>
  }

  // ---------- The idle reaper and shutdown ----------

  lemma ReaperKeepsInv(c: Config, s: State, s': State, t: ThreadId, step: Step)
    requires Inv(c, s) && t in s.pcs && s.pool.idle <= s.pool.procs.Keys
    requires ReaperStep(c, s, s', t, step)
    ensures Inv(c, s')
  {
    match step
    case ReaperBegin => FreeMoveKeepsInv(c, s, s', t, s'.pcs[t], s.pool);
    case ReaperCollect(victims) =>
      CollectKeepsInv(c, s, s', t, victims, StaleWorkers(s.pool, c.idleTtl, s.pcs[t].seen));
    case ReaperKill => ReaperKillKeepsInv(c, s, s', t);
    case ReaperReadd => ReaddKeepsInv(c, s, s', t);
    case Shutdown => ShutdownKeepsInv(c, s, s');
    case _ =>
  }

  lemma CollectKeepsInv(c: Config, s: State, s': State, t: ThreadId, victims: seq<WorkerId>, stale: set<WorkerId>)
    requires Inv(c, s) && t in s.pcs && s.pcs[t].ReaperArmed?
    requires stale <= s.pool.idle && forall w :: w in victims <==> w in stale
    requires MovesWith(s, s', t, if stale == {} then Outside else Evicting(victims, stale),
                       s.pool.(idle := s.pool.idle - stale))
    ensures Inv(c, s')
  {
    TakeKeepsOccupancy(c, s, s', t, stale);
    OnlyKillsKeepsPaired(s, s');
    MapsFrame(c, s.pool, s'.pool);
    CollectKeepsRest(c, s, s', t, victims, stale);
  }

  lemma CollectKeepsRest(c: Config, s: State, s': State, t: ThreadId, victims: seq<WorkerId>, stale: set<WorkerId>)
    requires Shaped(c, s) && NoLostWakeup(s) && StickyRouting(c, s) && RecycleClean(s) && Mortal(s)
    requires t in s.pcs && s.pcs[t].ReaperArmed?
    requires stale <= s.pool.idle && forall w :: w in victims <==> w in stale
    requires MovesWith(s, s', t, if stale == {} then Outside else Evicting(victims, stale),
                       s.pool.(idle := s.pool.idle - stale))
    requires forall v :: Taken(s', v) <==> Taken(s, v) || v in stale
    ensures Shaped(c, s') && NoLostWakeup(s') && StickyRouting(c, s') && RecycleClean(s') && Mortal(s')
  {
    assert forall u | u in s.pcs && u != t :: s'.pcs[u] == s.pcs[u];
  }

  lemma ReaperKillKeepsInv(c: Config, s: State, s': State, t: ThreadId)
    requires Inv(c, s) && t in s.pcs && s.pcs[t].Evicting? && s.pcs[t].todo != [] && s.pcs[t].todo[0] in s.pool.procs
    requires MovesWith(s, s', t, Evicting(s.pcs[t].todo[1..], s.pcs[t].stale), Kill(s.pool, s.pcs[t].todo[0]))
    ensures Inv(c, s')
  {
    ReaperKillKeepsHolders(c, s, s', t);
    MapsFrame(c, s.pool, s'.pool);
    ReaperKillKeepsRest(c, s, s', t);
    ReaperKillKeepsMortal(s, s', t);
  }

  lemma ReaperKillKeepsHolders(c: Config, s: State, s': State, t: ThreadId)
    requires Exclusive(s) && Accounted(c, s) && Paired(s) && AnswersMatch(s)
    requires t in s.pcs && s.pcs[t].Evicting? && s.pcs[t].todo != [] && s.pcs[t].todo[0] in s.pool.procs
    requires MovesWith(s, s', t, Evicting(s.pcs[t].todo[1..], s.pcs[t].stale), Kill(s.pool, s.pcs[t].todo[0]))
    ensures Exclusive(s') && Accounted(c, s') && Paired(s') && AnswersMatch(s')
    ensures forall v :: Taken(s', v) <==> Taken(s, v)
  {
    SameHoldsKeepsOccupancy(c, s, s');
    OnlyKillsKeepsPaired(s, s');
  }

  lemma ReaperKillKeepsRest(c: Config, s: State, s': State, t: ThreadId)
    requires Shaped(c, s) && NoLostWakeup(s) && StickyRouting(c, s) && RecycleClean(s)
    requires t in s.pcs && s.pcs[t].Evicting? && s.pcs[t].todo != [] && s.pcs[t].todo[0] in s.pool.procs
    requires MovesWith(s, s', t, Evicting(s.pcs[t].todo[1..], s.pcs[t].stale), Kill(s.pool, s.pcs[t].todo[0]))
    ensures Shaped(c, s') && NoLostWakeup(s') && StickyRouting(c, s') && RecycleClean(s')
  {
    assert PcOk(c, s.pcs[t]);
  }

  lemma ReaperKillKeepsMortal(s: State, s': State, t: ThreadId)
    requires Mortal(s) && t in s.pcs && s.pcs[t].Evicting? && s.pcs[t].todo != [] && s.pcs[t].todo[0] in s.pool.procs
    requires MovesWith(s, s', t, Evicting(s.pcs[t].todo[1..], s.pcs[t].stale), Kill(s.pool, s.pcs[t].todo[0]))
    requires forall v :: Taken(s', v) <==> Taken(s, v)
    ensures Mortal(s')
  {
    var todo := s.pcs[t].todo;
    assert forall w | w in todo :: w == todo[0] || w in todo[1..];
  }

  lemma ReaddKeepsInv(c: Config, s: State, s': State, t: ThreadId)
    requires Inv(c, s) && t in s.pcs && s.pcs[t].Evicting? && s.pcs[t].todo == []
    requires s' == s.(pool := Readd(s.pool, s.pcs[t].stale), pcs := WakeAll(s.pcs)[t := Outside])
    ensures Inv(c, s')
  {
    ReaddKeepsHolders(c, s, s', t);
    MapsFrame(c, s.pool, s'.pool);
    ReaddKeepsRest(c, s, s', t);
  }

  lemma ReaddKeepsHolders(c: Config, s: State, s': State, t: ThreadId)
    requires Exclusive(s) && Accounted(c, s) && Paired(s) && AnswersMatch(s) && Mortal(s)
    requires t in s.pcs && s.pcs[t].Evicting? && s.pcs[t].todo == []
    requires s' == s.(pool := Readd(s.pool, s.pcs[t].stale), pcs := WakeAll(s.pcs)[t := Outside])
    ensures Exclusive(s') && Accounted(c, s') && Paired(s') && AnswersMatch(s') && Mortal(s')
  {
    GiveKeepsOccupancy(c, s, s', t);
    OnlyKillsKeepsPaired(s, s');
    MortalFrame(s, s');
  }

  lemma ReaddKeepsRest(c: Config, s: State, s': State, t: ThreadId)
    requires Shaped(c, s) && StickyRouting(c, s) && RecycleClean(s)
    requires t in s.pcs && s.pcs[t].Evicting? && s.pcs[t].todo == []
    requires s' == s.(pool := Readd(s.pool, s.pcs[t].stale), pcs := WakeAll(s.pcs)[t := Outside])
    ensures Shaped(c, s') && NoLostWakeup(s') && StickyRouting(c, s') && RecycleClean(s')
  {
    assert PcOk(c, s.pcs[t]);
    forall u | u in s.pcs && u != t
      ensures PcOk(c, s'.pcs[u]) && StickyPc(c, s'.pool, s'.pcs[u])
    {
      assert PcOk(c, s.pcs[u]) && StickyPc(c, s.pool, s.pcs[u]);
    }
  }

  lemma ShutdownKeepsInv(c: Config, s: State, s': State)
    requires Inv(c, s)
    requires s' == s.(pool := TakeDown(s.pool), pcs := if s.pool.down then s.pcs else WakeAll(s.pcs))
    ensures Inv(c, s')
  {
    if !s.pool.down {
      OnlyKillsKeepsPaired(s, s');
      MapsFrame(c, s.pool, s'.pool);
      ShutdownKeepsRest(c, s, s');
    }
  }

  lemma ShutdownKeepsRest(c: Config, s: State, s': State)
    requires Shaped(c, s) && StickyRouting(c, s) && RecycleClean(s) && Exclusive(s) && Mortal(s) && !s.pool.down
    requires s' == s.(pool := TakeDown(s.pool), pcs := WakeAll(s.pcs))
    ensures Shaped(c, s') && NoLostWakeup(s') && StickyRouting(c, s') && RecycleClean(s') && Mortal(s')
    ensures Exclusive(s') && Accounted(c, s')
  {
    forall u | u in s.pcs
      ensures PcOk(c, s'.pcs[u]) && StickyPc(c, s'.pool, s'.pcs[u]) && Holds(s'.pcs[u]) == Holds(s.pcs[u])
    {
      assert PcOk(c, s.pcs[u]) && StickyPc(c, s.pool, s.pcs[u]);
    }
  }

  // ---------- The children and the clock ----------

  /** The child of w did something; only the conversation with w's holder is affected. */
  lemma ChildActKeepsInv(c: Config, s: State, s': State, t: ThreadId, w: WorkerId, q: Proc)
    requires Inv(c, s) && Talks(s, t, w) && w in s.pool.procs && s.pool.procs[w].alive
    requires s' == s.(pool := s.pool.(procs := s.pool.procs[w := q])) && PipesOk(q, s.pcs[t].stage)
    ensures Inv(c, s')
  {
    assert s' == Worked(s, t, s.pcs[t].stage, q) by {
      assert s.pcs[t := s.pcs[t]] == s.pcs;
    }
    WorksKeepsInv(c, s, s', t, s.pcs[t].stage, q);
  }

  lemma WorldKeepsInv(c: Config, s: State, s': State, step: Step)
    requires Inv(c, s) && WorldStep(s, s', step)
    ensures Inv(c, s')
  {
    match step
    case ChildReady(w) =>
      assert !s.pool.procs[w].Quiet();
      var t :| Talks(s, t, w);
      assert PipesOk(s.pool.procs[w], s.pcs[t].stage);
      ChildActKeepsInv(c, s, s', t, w, s'.pool.procs[w]);
    case ChildAnswer(w) =>
      assert !s.pool.procs[w].Quiet();
      var t :| Talks(s, t, w);
      assert PipesOk(s.pool.procs[w], s.pcs[t].stage);
      ChildActKeepsInv(c, s, s', t, w, s'.pool.procs[w]);
    case ChildCloses(w) => ClosesKeepsInv(c, s, s', w);
    case ChildDies(w) => DiesKeepsInv(c, s, s', w);
    case Tick(later) =>
      SameHoldersKeepPaired(s, s');
      SameHoldsKeepsOccupancy(c, s, s');
    case _ =>
  }

  /** A child that closes its stdout can say no more, but what it said stays readable. */
  lemma ClosesKeepsInv(c: Config, s: State, s': State, w: WorkerId)
    requires Inv(c, s) && WorldStep(s, s', ChildCloses(w))
    ensures Inv(c, s')
  {
    SameHoldsKeepsOccupancy(c, s, s');
    ClosesKeepsPaired(s, s', w);
    MapsFrame(c, s.pool, s'.pool);
    MortalFrame(s, s');
    ClosesKeepsRest(c, s, s', w);
  }

  lemma ClosesKeepsPaired(s: State, s': State, w: WorkerId)
    requires Paired(s) && AnswersMatch(s) && WorldStep(s, s', ChildCloses(w))
    ensures Paired(s') && AnswersMatch(s')
  {
    forall u | u in s'.pcs && s'.pcs[u].Holding? && s'.pcs[u].w in s'.pool.procs
      ensures PipesOk(s'.pool.procs[s'.pcs[u].w], s'.pcs[u].stage)
    {
      assert PipesOk(s.pool.procs[s.pcs[u].w], s.pcs[u].stage);
    }
    forall v | v in s'.pool.procs && s'.pool.procs[v].alive && !s'.pool.procs[v].Quiet()
      ensures exists u :: Talks(s', u, v)
    {
      var u :| Talks(s, u, v);
      assert Talks(s', u, v);
    }
  }

  lemma ClosesKeepsRest(c: Config, s: State, s': State, w: WorkerId)
    requires Shaped(c, s) && NoLostWakeup(s) && StickyRouting(c, s) && RecycleClean(s)
    requires WorldStep(s, s', ChildCloses(w))
    ensures Shaped(c, s') && NoLostWakeup(s') && StickyRouting(c, s') && RecycleClean(s')
  {
  }

  lemma DiesKeepsInv(c: Config, s: State, s': State, w: WorkerId)
    requires Inv(c, s) && w in s.pool.procs && s' == s.(pool := Kill(s.pool, w))
    ensures Inv(c, s')
  {
    DiesKeepsHolders(c, s, s', w);
    MapsFrame(c, s.pool, s'.pool);
    DiesKeepsRest(c, s, s', w);
  }

  lemma DiesKeepsHolders(c: Config, s: State, s': State, w: WorkerId)
    requires Exclusive(s) && Accounted(c, s) && Paired(s) && AnswersMatch(s) && Mortal(s)
    requires w in s.pool.procs && s' == s.(pool := Kill(s.pool, w))
    ensures Exclusive(s') && Accounted(c, s') && Paired(s') && AnswersMatch(s') && Mortal(s')
  {
    SameHoldsKeepsOccupancy(c, s, s');
    OnlyKillsKeepsPaired(s, s');
    MortalFrame(s, s');
  }

  lemma DiesKeepsRest(c: Config, s: State, s': State, w: WorkerId)
    requires Shaped(c, s) && NoLostWakeup(s) && StickyRouting(c, s) && RecycleClean(s)
    requires w in s.pool.procs && s' == s.(pool := Kill(s.pool, w))
    ensures Shaped(c, s') && NoLostWakeup(s') && StickyRouting(c, s') && RecycleClean(s')
  {
  }

  // ---------- All steps, all runs ----------

  lemma InitHasInv(c: Config, s: State)
    requires Init(c, s)
    ensures Inv(c, s)
  {
  }

  lemma NextKeepsInv(c: Config, s: State, s': State)
    requires Inv(c, s) && Next(c, s, s')
    ensures Inv(c, s')
  {
    var t, step :| NextStep(c, s, s', t, step);
    if WorldStep(s, s', step) {
      WorldKeepsInv(c, s, s', step);
    } else if EntryStep(c, s, s', t, step) {
      EntryKeepsInv(c, s, s', t, step);
    } else if LeaseStep(s, s', t, step) {
      LeaseKeepsInv(c, s, s', t, step);
    } else if s.pool.idle <= s.pool.procs.Keys && ReaperStep(c, s, s', t, step) {
      ReaperKeepsInv(c, s, s', t, step);
    } else if ChildStep(c, s, s', t, step) {
      ChildStepKeepsInv(c, s, s', t, step);
    } else if step.Send? && SendStep(s, s', t) {
      SendKeepsInv(c, s, s', t);
    } else {
      HolderKeepsInv(c, s, s', t, step);
    }
  }

  lemma {:induction false} RunHasInv(c: Config, run: seq<State>, i: nat)
    requires IsRun(c, run) && i < |run|
    ensures Inv(c, run[i])
  {
    if i == 0 {
      InitHasInv(c, run[0]);
    } else {
      RunHasInv(c, run, i - 1);
      assert Follows(c, run, i - 1);
      NextKeepsInv(c, run[i - 1], run[i]);
    }
  }
}
