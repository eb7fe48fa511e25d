/** The pool object itself: the fields of BaseProcessPool and FormulaProcessPool, and each
    block that runs under the pool's lock, carried out on those fields step by step.

    Every method is proved to do to the fields exactly what the corresponding function of
    PoolState does to their values; the protocol is built from those functions. */
module FormulaPool {
  import opened PoolState

  /** What one round of the loop in lease_any or lease_specific decides. */
  datatype Verdict = Granted(w: WorkerId) | Refused | MustWait

  class FormulaProcessPool {
    const config: Config
    var workers: seq<WorkerId>
    var idle: set<WorkerId>
    var workerLastActive: map<WorkerId, int>
    var isShutdown: bool
    var activeSessions: map<SessionId, WorkerId>
    var workerSessions: map<WorkerId, set<SessionId>>
    var sessionLastActivity: map<SessionId, int>
    var procs: map<WorkerId, Proc>

    ghost function Snapshot(): Pool
      reads this
    {
      Pool(workers, idle, workerLastActive, isShutdown, activeSessions, workerSessions, sessionLastActivity, procs)
    }

    ghost predicate Valid()
      reads this
    {
      idle <= procs.Keys && forall w | w in workers :: w in procs
    }

    /** `spawned` is what launching the workers gave: each child is up and quiet, or dead. */
    constructor (config: Config, spawned: map<WorkerId, Proc>, now: int)
      requires config.Valid() && spawned.Keys == config.All()
      requires forall w | w in spawned :: spawned[w].alive ==> spawned[w].Quiet()
      ensures Valid() && this.config == config && procs == spawned && FreshPool(config, Snapshot(), now)
    {
      this.config := config;
      workers, idle, workerLastActive := [], {}, map[];
      isShutdown, procs := false, spawned;
      activeSessions, workerSessions, sessionLastActivity := map[], map[], map[];
      new;
      for i := 0 to |config.workers|
        invariant workers == config.workers[..i]
        invariant idle == workerLastActive.Keys == set k | 0 <= k < i :: config.workers[k]
        invariant forall w | w in workerLastActive :: workerLastActive[w] == now
        invariant !isShutdown && procs == spawned
        invariant activeSessions == map[] && workerSessions == map[] && sessionLastActivity == map[]
      {
        var w := config.workers[i];
        workers := workers + [w];
        idle := idle + {w};
        workerLastActive := workerLastActive[w := now];
      }
    }

    /** One round of lease_any. */
    method AskAny(now: int, deadline: int) returns (v: Verdict)
      requires Valid()
      modifies this`idle
      ensures Valid()
      ensures v.Granted? ==> !isShutdown && v.w in old(idle) && Snapshot() == Lease(old(Snapshot()), v.w)
      ensures !v.Granted? ==> Snapshot() == old(Snapshot())
      ensures v.Refused? <==> isShutdown || (old(idle) == {} && deadline <= now)
      ensures v.MustWait? <==> !isShutdown && old(idle) == {} && now < deadline
    {
      if isShutdown {
        return Refused;
      }
      if idle != {} {
        var w :| w in idle;
        idle := idle - {w};
        return Granted(w);
      }
      return if deadline - now <= 0 then Refused else MustWait;
    }

    /** One round of lease_specific. */
    method AskFor(worker: WorkerId, now: int, deadline: int) returns (v: Verdict)
      requires Valid()
      modifies this`idle
      ensures Valid()
      ensures v.Granted? <==> !isShutdown && worker in old(idle)
      ensures v.Granted? ==> v.w == worker
      ensures Snapshot() == if v.Granted? then Lease(old(Snapshot()), worker) else old(Snapshot())
      ensures v.Refused? <==> isShutdown || (worker !in old(idle) && deadline <= now)
    {
      if isShutdown {
        return Refused;
      }
      if worker in idle {
        idle := idle - {worker};
        return Granted(worker);
      }
      return if deadline - now <= 0 then Refused else MustWait;
    }

    /** BaseProcessWorker.kill, as seen by the pool. */
    method KillWorker(w: WorkerId)
      requires w in procs
      modifies this`procs
      ensures procs == old(procs)[w := old(procs)[w].Killed()]
    {
      procs := procs[w := procs[w].Killed()];
    }

    /** The locked block of release_worker. */
    method TakeBack(w: WorkerId, now: int)
      requires Valid() && w in procs
      modifies this
      ensures Valid() && Snapshot() == GiveBack(old(Snapshot()), w, now)
    {
      if isShutdown {
        KillWorker(w);
      } else {
        idle := idle + {w};
        workerLastActive := workerLastActive[w := now];
      }
    }

    method Shutdown()
      requires Valid()
      modifies this
      ensures Valid() && Snapshot() == TakeDown(old(Snapshot()))
      ensures isShutdown && procs.Keys == old(procs).Keys
      ensures !old(isShutdown) ==> idle == {} && workers == [] && forall w | w in old(workers) :: !procs[w].alive
    {
      if isShutdown {
        return;
      }
      isShutdown := true;
      for i := 0 to |workers|
        invariant isShutdown && workers == old(workers) && procs.Keys == old(procs).Keys
        invariant idle == old(idle) && activeSessions == old(activeSessions)
        invariant workerSessions == old(workerSessions) && sessionLastActivity == old(sessionLastActivity)
        invariant forall w | w in procs ::
                    procs[w] == if w in workers[..i] then old(procs)[w].Killed() else old(procs)[w]
      {
        assert workers[..i + 1] == workers[..i] + [workers[i]];
        KillWorker(workers[i]);
      }
      assert workers[..|workers|] == workers;
      workers, idle, workerLastActive := [], {}, map[];
    }

    /** The first locked block of the idle reaper. */
    method CollectStaleWorkers(seen: int) returns (stale: set<WorkerId>)
      requires Valid()
      modifies this`idle
      ensures Valid()
      ensures stale == StaleWorkers(old(Snapshot()), config.idleTtl, seen)
      ensures forall w | w in old(idle) ::
                w in stale <==> procs[w].alive
                                && (if w in workerLastActive then seen >= workerLastActive[w] + config.idleTtl
                                    else config.idleTtl <= 0)
      ensures Snapshot() == old(Snapshot()).(idle := old(idle) - stale)
    {
      stale := {};
      var todo := idle;
      while todo != {}
        invariant todo <= idle && stale !! todo
        invariant stale == set w | w in idle - todo && procs[w].alive
                                   && seen - Lookup(workerLastActive, w, seen) >= config.idleTtl
      {
        var w :| w in todo;
        todo := todo - {w};
        if procs[w].alive && seen - Lookup(workerLastActive, w, seen) >= config.idleTtl {
          stale := stale + {w};
        }
      }
      idle := idle - stale;
    }

    /** The second locked block of the idle reaper. */
    method ReaddWorkers(stale: set<WorkerId>)
      requires Valid() && stale <= procs.Keys
      modifies this`idle
      ensures Valid() && Snapshot() == Readd(old(Snapshot()), stale)
    {
      var todo := stale;
      while todo != {}
        invariant todo <= stale
        invariant idle == if isShutdown then old(idle) else old(idle) + (stale - todo)
      {
        var w :| w in todo;
        todo := todo - {w};
        if !isShutdown {
          idle := idle + {w};
        }
      }
    }

    /** Registration of a shared session, in execute. */
    method Register(sid: SessionId, leased: WorkerId, now: int)
      requires Valid()
      modifies this
      ensures Valid() && Snapshot() == Bind(old(Snapshot()), sid, leased, now)
    {
      activeSessions := activeSessions[sid := leased];
      if leased !in workerSessions {
        workerSessions := workerSessions[leased := {}];
      }
      workerSessions := workerSessions[leased := workerSessions[leased] + {sid}];
      sessionLastActivity := sessionLastActivity[sid := now];
    }

    /** The map updates of reset_session and of the session reaper; gives the worker the
        session was on, if any. */
    method Forget(sid: SessionId) returns (was: set<WorkerId>)
      requires Valid()
      modifies this
      ensures Valid() && Snapshot() == Unbind(old(Snapshot()), sid)
      ensures was == if sid in old(activeSessions) then {old(activeSessions)[sid]} else {}
    {
      was := {};
      sessionLastActivity := sessionLastActivity - {sid};
      if sid in activeSessions {
        var mapped := activeSessions[sid];
        was := {mapped};
        activeSessions := activeSessions - {sid};
        if mapped in workerSessions {
          workerSessions := workerSessions[mapped := workerSessions[mapped] - {sid}];
          if workerSessions[mapped] == {} {
            workerSessions := workerSessions - {mapped};
          }
        }
      }
    }

    /** _clear_worker_sessions_unlocked. */
    method ClearWorkerSessions(w: WorkerId)
      requires Valid()
      modifies this
      ensures Valid() && Snapshot() == Clear(old(Snapshot()), w)
    {
      var sessions := Lookup(workerSessions, w, {});
      workerSessions := workerSessions - {w};
      var todo := sessions;
      while todo != {}
        invariant todo <= sessions
        invariant activeSessions == old(activeSessions) - (sessions - todo)
        invariant sessionLastActivity == old(sessionLastActivity) - (sessions - todo)
        invariant workerSessions == old(workerSessions) - {w}
        invariant workers == old(workers) && idle == old(idle) && workerLastActive == old(workerLastActive)
        invariant isShutdown == old(isShutdown) && procs == old(procs)
      {
        var sid :| sid in todo;
        todo := todo - {sid};
        activeSessions := activeSessions - {sid};
        sessionLastActivity := sessionLastActivity - {sid};
      }
    }

    /** The locked block of should_recycle_worker. */
    method HasSessions(w: WorkerId) returns (has: bool)
      requires Valid() && w in procs
      modifies this
      ensures Valid() && (Snapshot(), has) == CheckSessions(old(Snapshot()), w)
    {
      if !procs[w].alive {
        ClearWorkerSessions(w);
        return false;
      }
      return Lookup(workerSessions, w, {}) != {};
    }

    /** The locked block of the session reaper that picks what has expired. */
    method CollectStaleSessions(seen: int) returns (stale: map<SessionId, WorkerId>)
      ensures stale == StaleSessions(Snapshot(), config.sessionTtl, seen)
      ensures forall sid :: sid in stale <==> sid in activeSessions && sid in sessionLastActivity
                                              && seen >= sessionLastActivity[sid] + config.sessionTtl
      ensures forall sid | sid in stale :: stale[sid] == activeSessions[sid]
    {
      stale := map[];
      var todo := sessionLastActivity.Keys;
      while todo != {}
        invariant todo <= sessionLastActivity.Keys
        invariant stale == map s | s in sessionLastActivity.Keys - todo && s in activeSessions
                                   && seen - sessionLastActivity[s] >= config.sessionTtl :: activeSessions[s]
      {
        var sid :| sid in todo;
        todo := todo - {sid};
        if seen - sessionLastActivity[sid] >= config.sessionTtl && sid in activeSessions {
          stale := stale[sid := activeSessions[sid]];
        }
      }
    }
  }
}
