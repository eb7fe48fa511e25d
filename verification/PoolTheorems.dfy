/** What the pool promises, over every run of the protocol. */
module PoolTheorems {
  import opened PoolState
  import opened PoolProtocol
  import opened PoolSafety

  datatype Role = Lessee | Recycler | Evictor

  ghost function RoleOf(pc: PC): Role {
    if pc.Evicting? then Evictor
    else if pc.Holding? && ToBeRecycled(pc.stage) && !pc.stage.Checked? then Recycler
    else Lessee
  }

  ghost function InRole(c: Config, s: State, role: Role): set<WorkerId> {
    set w | w in c.All() && exists t :: t in s.pcs && w in Holds(s.pcs[t]) && RoleOf(s.pcs[t]) == role
  }

  /** Exclusive occupancy: no worker is in two roles or held by two threads, and until shutdown
      every worker is idle, leased, being recycled or being evicted. */
  lemma ExclusiveOccupancy(c: Config, run: seq<State>, i: nat)
    requires IsRun(c, run) && i < |run|
    ensures var s := run[i];
            && s.pool.idle !! InRole(c, s, Lessee) !! InRole(c, s, Recycler) !! InRole(c, s, Evictor)
            && (!s.pool.down ==>
                  c.All() == s.pool.idle + InRole(c, s, Lessee) + InRole(c, s, Recycler) + InRole(c, s, Evictor))
    ensures var s := run[i];
            forall t, u, w | t in s.pcs && u in s.pcs && w in Holds(s.pcs[t]) && w in Holds(s.pcs[u]) :: t == u
  {
    RunHasInv(c, run, i);
    HeldByOne(run[i]);
    RolesAreDisjoint(c, run[i]);
    RolesCover(c, run[i]);
  }

  lemma HeldByOne(s: State)
    requires Exclusive(s)
    ensures forall t, u, w | t in s.pcs && u in s.pcs && w in Holds(s.pcs[t]) && w in Holds(s.pcs[u]) :: t == u
  {
  }

  lemma RolesAreDisjoint(c: Config, s: State)
    requires Exclusive(s)
    ensures s.pool.idle !! InRole(c, s, Lessee) !! InRole(c, s, Recycler) !! InRole(c, s, Evictor)
  {
    HeldByOne(s);
    forall role, w | w in InRole(c, s, role)
      ensures w !in s.pool.idle && forall other | w in InRole(c, s, other) :: other == role
    {
    }
  }

  lemma RolesCover(c: Config, s: State)
    requires Shaped(c, s) && Accounted(c, s)
    ensures !s.pool.down ==>
              c.All() == s.pool.idle + InRole(c, s, Lessee) + InRole(c, s, Recycler) + InRole(c, s, Evictor)
  {
    if !s.pool.down {
      forall w | w in c.All() && w !in s.pool.idle
        ensures w in InRole(c, s, Lessee) || w in InRole(c, s, Recycler) || w in InRole(c, s, Evictor)
      {
        assert Taken(s, w);
        var t :| t in s.pcs && w in Holds(s.pcs[t]);
        assert w in InRole(c, s, RoleOf(s.pcs[t]));
      }
    }
  }

  /** The worker that the idle reaper kills is not idle, no other thread holds it, and if its
      child is alive then nothing is in flight on its pipes. */
  lemma ReaperKillsOnlyUnleased(c: Config, run: seq<State>, i: nat, t: ThreadId)
    requires IsRun(c, run) && i < |run| && t in run[i].pcs
    requires run[i].pcs[t].Evicting? && run[i].pcs[t].todo != []
    ensures var s := run[i];
            var w := s.pcs[t].todo[0];
            && w in s.pool.procs && w !in s.pool.idle
            && (forall u | u in s.pcs && u != t :: w !in Holds(s.pcs[u]))
            && (s.pool.procs[w].alive ==> s.pool.procs[w].Quiet())
  {
    RunHasInv(c, run, i);
    var s := run[i];
    var w := s.pcs[t].todo[0];
    assert PcOk(c, s.pcs[t]) && w in Holds(s.pcs[t]);
    forall u | u in s.pcs && s.pcs[u].Holding? ensures s.pcs[u].w != w {
      assert s.pcs[u].w in Holds(s.pcs[u]);
    }
  }

  /** Two requests for the same shared session are never served at the same time, and the
      one that is served has the worker that the session's hash selects. */
  lemma SessionsAreSerial(c: Config, run: seq<State>, i: nat, t: ThreadId, u: ThreadId, sid: SessionId)
    requires IsRun(c, run) && i < |run| && t in run[i].pcs && u in run[i].pcs
    requires run[i].pcs[t].Holding? && run[i].pcs[t].job == Sticky(sid)
    requires run[i].pcs[u].Holding? && run[i].pcs[u].job == Sticky(sid)
    ensures t == u
    ensures c.workers != [] && run[i].pcs[t].w == c.Target(sid)
  {
    RunHasInv(c, run, i);
    var s := run[i];
    assert StickyPc(c, s.pool, s.pcs[t]) && StickyPc(c, s.pool, s.pcs[u]);
    assert s.pcs[t].w in Holds(s.pcs[t]) && s.pcs[u].w in Holds(s.pcs[u]);
  }

  /** Request and answer are paired: whatever execute returns is the child's answer to the
      request that this execute sent. */
  lemma AnswerIsForTheRequest(c: Config, run: seq<State>, i: nat, t: ThreadId)
    requires IsRun(c, run) && i < |run| && t in run[i].pcs
    requires run[i].pcs[t].Holding? && run[i].pcs[t].stage.Finished? && run[i].pcs[t].stage.result.Answered?
    ensures run[i].pcs[t].stage.result.frame == Answer(run[i].pcs[t].stage.asked)
  {
    RunHasInv(c, run, i);
  }

  /** Whenever execute has failed with a code, be it that the child did not start, the pipe broke, the
      time was up, the child crashed or gave no response, the child is dead. */
  lemma FailureLeavesNoChild(c: Config, run: seq<State>, i: nat, t: ThreadId)
    requires IsRun(c, run) && i < |run| && t in run[i].pcs
    requires run[i].pcs[t].Holding? && run[i].pcs[t].stage.Finished? && run[i].pcs[t].stage.result.Failed?
    ensures run[i].pcs[t].w in run[i].pool.procs && !run[i].pool.procs[run[i].pcs[t].w].alive
  {
    RunHasInv(c, run, i);
    assert PcOk(c, run[i].pcs[t]);
    assert PipesOk(run[i].pool.procs[run[i].pcs[t].w], run[i].pcs[t].stage);
  }

  /** While no execute or handshake is in progress on a live worker, its pipes are empty and
      tasks_executed is the number of answers its child has given. */
  lemma QuietBetweenRequests(c: Config, run: seq<State>, i: nat, w: WorkerId)
    requires IsRun(c, run) && i < |run| && w in run[i].pool.procs && run[i].pool.procs[w].alive
    requires forall t :: !Talks(run[i], t, w)
    ensures var q := run[i].pool.procs[w];
            q.inbox == [] && q.outbox == [] && q.tasks == q.answered
  {
    RunHasInv(c, run, i);
  }

  /** A launch never replaces a live child, so no child is ever left without an owner. */
  lemma LaunchNeverOrphans(c: Config, run: seq<State>, i: nat, t: ThreadId)
    requires IsRun(c, run) && i < |run| && t in run[i].pcs
    requires run[i].pcs[t].Holding? && run[i].pcs[t].stage.Launching?
    ensures run[i].pcs[t].w in run[i].pool.procs && !run[i].pool.procs[run[i].pcs[t].w].alive
  {
    RunHasInv(c, run, i);
    assert PcOk(c, run[i].pcs[t]);
    assert PipesOk(run[i].pool.procs[run[i].pcs[t].w], run[i].pcs[t].stage);
  }

  /** From the decision to recycle a worker until its new child is up, no session is on it. */
  lemma RecyclingDropsNoSession(c: Config, run: seq<State>, i: nat, t: ThreadId, sid: SessionId)
    requires IsRun(c, run) && i < |run| && t in run[i].pcs
    requires run[i].pcs[t].Holding? && ToBeRecycled(run[i].pcs[t].stage)
    ensures sid in run[i].pool.active ==> run[i].pool.active[sid] != run[i].pcs[t].w
    ensures run[i].pcs[t].w !in run[i].pool.bound
  {
    RunHasInv(c, run, i);
    var p := run[i].pool;
    assert sid in p.active ==> On(p, p.active[sid], sid);
  }

  lemma SessionMapsStayInverse(c: Config, run: seq<State>, i: nat, sid: SessionId, w: WorkerId)
    requires IsRun(c, run) && i < |run|
    ensures var p := run[i].pool;
            && ((sid in p.active && p.active[sid] == w) <==> (w in p.bound && sid in p.bound[w]))
            && (w in p.bound ==> p.bound[w] != {})
            && (sid in p.active ==> sid in p.touched && c.workers != [] && p.active[sid] == c.Target(sid))
  {
    RunHasInv(c, run, i);
    var p := run[i].pool;
    assert (w in p.bound && sid in p.bound[w]) <==> On(p, w, sid);
  }

  /** No waiter sleeps through what it waits for. */
  lemma WaitersAreNeverForgotten(c: Config, run: seq<State>, i: nat, t: ThreadId)
    requires IsRun(c, run) && i < |run| && t in run[i].pcs && run[i].pcs[t].Waiting?
    ensures !run[i].pool.down
    ensures run[i].pcs[t].want == AnyWorker ==> run[i].pool.idle == {}
    ensures run[i].pcs[t].want.This? ==> run[i].pcs[t].want.w !in run[i].pool.idle
  {
    RunHasInv(c, run, i);
  }

  // ---------- Shutdown ----------

  /** The pool stays down, thread u gains no worker, and the others stay put or are woken. */
  ghost predicate Settles(s: State, s': State, u: ThreadId) {
    && s'.pool.down && s'.pcs.Keys == s.pcs.Keys && u in s.pcs
    && Holds(s'.pcs[u]) <= Holds(s.pcs[u])
    && forall t | t in s.pcs && t != u :: s'.pcs[t] == s.pcs[t] || s'.pcs[t] == Wake(s.pcs[t])
  }

  lemma EntrySettles(c: Config, s: State, s': State, u: ThreadId, step: Step)
    requires s.pool.down && u in s.pcs && (EntryStep(c, s, s', u, step) || LeaseStep(s, s', u, step))
    ensures Settles(s, s', u)
  {
  }

  lemma ChildStepSettles(c: Config, s: State, s': State, u: ThreadId, step: Step)
    requires s.pool.down && u in s.pcs && s.pcs[u].Holding? && s.pcs[u].w in s.pool.procs
    requires ChildStep(c, s, s', u, step)
    ensures Settles(s, s', u)
  {
    assert Works(s, s'.(ticket := s.ticket), u, s'.pcs[u].stage, s'.pool.procs[s.pcs[u].w]);
    WorksSettles(s, s', u, s'.pcs[u].stage, s'.pool.procs[s.pcs[u].w]);
  }

  lemma WorksSettles(s: State, s': State, u: ThreadId, next: Stage, q: Proc)
    requires s.pool.down && Works(s, s'.(ticket := s.ticket), u, next, q)
    ensures Settles(s, s', u)
  {
  }

  lemma HolderStepSettles(c: Config, s: State, s': State, u: ThreadId, step: Step)
    requires s.pool.down && u in s.pcs && s.pcs[u].Holding? && s.pcs[u].w in s.pool.procs
    requires HolderStep(c, s, s', u, step)
    ensures Settles(s, s', u)
  {
  }

  lemma ReaperSettles(c: Config, s: State, s': State, u: ThreadId, step: Step)
    requires s.pool.down && u in s.pcs && s.pool.idle == {} && ReaperStep(c, s, s', u, step)
    ensures Settles(s, s', u)
  {
    if step.ReaperCollect? {
      assert StaleWorkers(s.pool, c.idleTtl, s.pcs[u].seen) == {};
    }
  }

  lemma ThreadSettles(c: Config, s: State, s': State, u: ThreadId, step: Step)
    requires s.pool.down && s.pool.idle == {} && ThreadStep(c, s, s', u, step)
    ensures Settles(s, s', u)
  {
    if EntryStep(c, s, s', u, step) || LeaseStep(s, s', u, step) {
      EntrySettles(c, s, s', u, step);
    } else if ReaperStep(c, s, s', u, step) {
      ReaperSettles(c, s, s', u, step);
    } else if HolderStep(c, s, s', u, step) {
      HolderStepSettles(c, s, s', u, step);
    } else if ChildStep(c, s, s', u, step) {
      ChildStepSettles(c, s, s', u, step);
    } else {
      WorksSettles(s, s', u, s'.pcs[u].stage, s'.pool.procs[s.pcs[u].w]);
    }
  }

  /** A step after shutdown keeps the pool down and gives no thread a worker. */
  lemma DownStep(c: Config, s: State, s': State, t: ThreadId)
    requires s.pool.down && s.pool.idle == {} && Next(c, s, s') && t in s.pcs
    ensures s'.pool.down && t in s'.pcs && Holds(s'.pcs[t]) <= Holds(s.pcs[t])
  {
    var u, step :| NextStep(c, s, s', u, step);
    if !WorldStep(s, s', step) {
      ThreadSettles(c, s, s', u, step);
    }
  }

  lemma DownIsEmpty(c: Config, run: seq<State>, j: nat)
    requires IsRun(c, run) && j < |run| && run[j].pool.down
    ensures run[j].pool.idle == {} && run[j].pool.workers == []
  {
    RunHasInv(c, run, j);
  }

  /** Once shut down, the pool stays down, its idle set stays empty, and each thread only
      ever holds workers that it already held. */
  lemma {:induction false} ShutdownIsFinal(c: Config, run: seq<State>, i: nat, j: nat, t: ThreadId)
    requires IsRun(c, run) && i <= j < |run| && run[i].pool.down && t in run[i].pcs
    ensures run[j].pool.down && run[j].pool.idle == {} && run[j].pool.workers == []
    ensures t in run[j].pcs && Holds(run[j].pcs[t]) <= Holds(run[i].pcs[t])
    decreases j
  {
    if i < j {
      ShutdownIsFinal(c, run, i, j - 1, t);
      assert Follows(c, run, j - 1);
      DownStep(c, run[j - 1], run[j], t);
    }
    DownIsEmpty(c, run, j);
  }

  /** After shutdown, once every lease is given back and every reaper has finished, no child
      is alive, whatever execute or recycling launched in between. */
  lemma NoChildOutlivesThePool(c: Config, run: seq<State>, i: nat, w: WorkerId)
    requires IsRun(c, run) && i < |run| && run[i].pool.down && w in run[i].pool.procs
    requires forall t | t in run[i].pcs :: Holds(run[i].pcs[t]) == {}
    ensures !run[i].pool.procs[w].alive
  {
    RunHasInv(c, run, i);
    assert !Taken(run[i], w);
  }
}
