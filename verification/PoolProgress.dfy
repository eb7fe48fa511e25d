/** How the pool's threads get on: none is ever stuck, no lease ends without a result of its request, and
    the session reaper goes through all that it picked. */
module PoolProgress {
  import opened PoolState
  import opened PoolProtocol
  import opened PoolSafety
  import opened PoolTimes

  // ---------- Nobody is stuck ----------

  ghost predicate CanGoOn(c: Config, s: State, t: ThreadId) {
    exists s', step :: ThreadStep(c, s, s', t, step)
  }

  ghost function Moved(s: State, t: ThreadId, pc: PC): State {
    s.(pcs := s.pcs[t := pc])
  }

  ghost function WorksTo(s: State, t: ThreadId, next: Stage, q: Proc): State
    requires t in s.pcs && s.pcs[t].Holding?
  {
    s.(pcs := s.pcs[t := s.pcs[t].(stage := next)], pool := s.pool.(procs := s.pool.procs[s.pcs[t].w := q]))
  }

  lemma {:induction false} ListOf(s: set<WorkerId>) returns (list: seq<WorkerId>)
    ensures forall w :: w in list <==> w in s
  {
    list := [];
    if s != {} {
      var w :| w in s;
      list := ListOf(s - {w});
      list := list + [w];
    }
  }

  lemma {:induction false} PairsOf(m: map<SessionId, WorkerId>, keys: set<SessionId>)
    returns (list: seq<(SessionId, WorkerId)>)
    requires keys <= m.Keys
    ensures forall i | 0 <= i < |list| :: list[i].0 in keys && list[i].1 == m[list[i].0]
    ensures forall sid | sid in keys :: (sid, m[sid]) in list
  {
    list := [];
    if keys != {} {
      var sid :| sid in keys;
      list := PairsOf(m, keys - {sid});
      list := list + [(sid, m[sid])];
    }
  }

  lemma AskingGoesOn(c: Config, s: State, t: ThreadId)
    requires t in s.pcs && (s.pcs[t].Admitted? || s.pcs[t].Asking? || (s.pcs[t].Waiting? && s.pcs[t].deadline <= s.now))
    ensures CanGoOn(c, s, t)
  {
    var p, pc := s.pool, s.pcs[t];
    if pc.Admitted? {
      var want := if pc.job.Sticky? && p.workers != []
                  then This(p.workers[Slot(c.hash(pc.job.sid), |p.workers|)]) else AnyWorker;
      assert ThreadStep(c, s, Moved(s, t, Asking(want, pc.job, pc.deadline)), t, Route);
    } else if pc.Waiting? {
      assert ThreadStep(c, s, Moved(s, t, Wake(pc)), t, LeaseTimeout);
    } else if !p.down && Available(p, pc.want) {
      var w: WorkerId := if pc.want.This? then pc.want.w else var w :| w in p.idle; w;
      assert ThreadStep(c, s, Moved(s, t, Holding(w, pc.job, Leased)).(pool := Lease(p, w)), t, LeaseGrant(w));
    } else if !p.down && s.now < pc.deadline {
      assert ThreadStep(c, s, Moved(s, t, Waiting(pc.want, pc.job, pc.deadline)), t, LeaseWait);
    } else {
      assert ThreadStep(c, s, Moved(s, t, AfterNoLease(pc.job)), t, LeaseRefuse);
    }
  }

  lemma ReaperGoesOn(c: Config, s: State, t: ThreadId)
    requires Shaped(c, s) && t in s.pcs && (s.pcs[t].ReaperArmed? || s.pcs[t].Evicting?)
    ensures CanGoOn(c, s, t)
  {
    var p, pc := s.pool, s.pcs[t];
    assert PcOk(c, pc);
    if pc.ReaperArmed? {
      CollectingGoesOn(c, s, t);
    } else if pc.todo != [] {
      var s' := Moved(s, t, Evicting(pc.todo[1..], pc.stale)).(pool := Kill(p, pc.todo[0]));
      assert ThreadStep(c, s, s', t, ReaperKill);
    } else {
      var s' := s.(pool := Readd(p, pc.stale), pcs := WakeAll(s.pcs)[t := Outside]);
      assert ThreadStep(c, s, s', t, ReaperReadd);
    }
  }

  lemma CollectingGoesOn(c: Config, s: State, t: ThreadId)
    requires s.pool.idle <= s.pool.procs.Keys && t in s.pcs && s.pcs[t].ReaperArmed?
    ensures CanGoOn(c, s, t)
  {
    var stale := StaleWorkers(s.pool, c.idleTtl, s.pcs[t].seen);
    var victims := ListOf(stale);
    var s' := Moved(s, t, if stale == {} then Outside else Evicting(victims, stale))
                .(pool := s.pool.(idle := s.pool.idle - stale));
    assert ThreadStep(c, s, s', t, ReaperCollect(victims));
  }

  lemma ExpiryGoesOn(c: Config, s: State, t: ThreadId)
    requires t in s.pcs && (s.pcs[t].ExpiryArmed? || s.pcs[t].NextExpiry? || s.pcs[t].Dropping?)
    ensures CanGoOn(c, s, t)
  {
    var p, pc := s.pool, s.pcs[t];
    if pc.ExpiryArmed? {
      var stale := StaleSessions(p, c.sessionTtl, pc.seen);
      var picked := PairsOf(stale, stale.Keys);
      assert ThreadStep(c, s, Moved(s, t, NextExpiry(picked)), t, ExpiryCollect(picked));
    } else if pc.Dropping? {
      assert ThreadStep(c, s, Moved(s, t, NextExpiry(pc.rest)).(pool := Unbind(p, pc.sid)), t, ExpiryDrop);
    } else {
      var next := if pc.rest == [] then Outside
                  else Asking(This(pc.rest[0].1), Expire(pc.rest[0].0, pc.rest[1..]), s.now + 2);
      assert ThreadStep(c, s, Moved(s, t, next), t, ExpiryNext);
    }
  }

  lemma ChildIsHandled(c: Config, s: State, t: ThreadId)
    requires t in s.pcs && s.pcs[t].Holding? && s.pcs[t].w in s.pool.procs
    requires var stage := s.pcs[t].stage;
             stage.Bound? || stage.Awaiting? || stage.Checked? || stage.Recycling?
    ensures CanGoOn(c, s, t)
  {
    var stage, q := s.pcs[t].stage, s.pool.procs[s.pcs[t].w];
    match stage
    case Bound =>
      var s' := WorksTo(s, t, if q.alive then Sending else Launching(ToExecute), q);
      assert ThreadStep(c, s, s', t, ExecuteStart);
    case Awaiting(ticket) =>
      var s' := WorksTo(s, t, Finished(ticket, Failed(EXECUTION_TIMEOUT)), q.Killed());
      assert ThreadStep(c, s, s', t, ReadFail(EXECUTION_TIMEOUT));
    case Checked(has) =>
      var s' := WorksTo(s, t, if !has && q.tasks >= c.maxTasks then Recycling else Handing, q);
      assert ThreadStep(c, s, s', t, DecideRecycle);
    case Recycling =>
      assert ThreadStep(c, s, WorksTo(s, t, Launching(ToRecycle), q.Killed()), t, RecycleKill);
    case _ =>
  }

  lemma SpawnGoesOn(c: Config, s: State, t: ThreadId)
    requires t in s.pcs && s.pcs[t].Holding? && s.pcs[t].w in s.pool.procs
    requires var stage := s.pcs[t].stage; stage.Launching? || stage.Handshaking? || stage.Spawned?
    ensures CanGoOn(c, s, t)
  {
    var stage, q := s.pcs[t].stage, s.pool.procs[s.pcs[t].w];
    match stage
    case Launching(why) =>
      assert ThreadStep(c, s, WorksTo(s, t, Handshaking(why), q.Launched()), t, LaunchOk);
    case Handshaking(why) =>
      assert ThreadStep(c, s, WorksTo(s, t, Spawned(why), q.Killed()), t, HandshakeFail);
    case Spawned(why) =>
      var next := if why.ToRecycle? then Handing
                  else if q.alive then Sending else Finished(s.ticket, Failed(WORKER_SPAWN_FAILED));
      assert ThreadStep(c, s, WorksTo(s, t, next, q), t, SpawnCheck);
    case _ =>
  }

  lemma HolderGoesOn(c: Config, s: State, t: ThreadId)
    requires t in s.pcs && s.pcs[t].Holding? && s.pcs[t].w in s.pool.procs
    requires var stage := s.pcs[t].stage; stage.Leased? || stage.Finished? || stage.Checking? || stage.Handing?
    ensures CanGoOn(c, s, t)
  {
    var p, w, job, stage := s.pool, s.pcs[t].w, s.pcs[t].job, s.pcs[t].stage;
    match stage
    case Leased =>
      var s' := Moved(s, t, Holding(w, job, Bound)).(pool := if job.Sticky? then Bind(p, job.sid, w, s.now) else p);
      assert ThreadStep(c, s, s', t, BindSession);
    case Finished(asked, result) =>
      var s' := Moved(s, t, Holding(w, job, Checking))
                  .(pool := if job.Sticky? then Touch(p, job.sid, s.now)
                            else if job.Expire? && result.Raised? then Kill(p, w) else p);
      assert ThreadStep(c, s, s', t, ExecuteEnd);
    case Checking =>
      var (p', has) := CheckSessions(p, w);
      var s' := Moved(s, t, Holding(w, job, if p.procs[w].alive then Checked(has) else Handing)).(pool := p');
      assert ThreadStep(c, s, s', t, CheckRecycle);
    case Handing =>
      var s' := s.(pool := GiveBack(p, w, s.now), pcs := WakeAll(s.pcs)[t := AfterRelease(job)]);
      assert ThreadStep(c, s, s', t, HandBack);
    case _ =>
  }

  lemma SenderGoesOn(c: Config, s: State, t: ThreadId)
    requires t in s.pcs && s.pcs[t].Holding? && s.pcs[t].w in s.pool.procs && s.pcs[t].stage.Sending?
    ensures CanGoOn(c, s, t)
  {
    var q := s.pool.procs[s.pcs[t].w];
    var q' := if q.alive then q.(inbox := q.inbox + [s.ticket]) else q;
    assert ThreadStep(c, s, WorksTo(s, t, Awaiting(s.ticket), q').(ticket := s.ticket + 1), t, Send);
  }

  /** In every state of every run each thread that has entered the pool has a next step, unless it waits
      and its deadline is still to come. */
  lemma NobodyIsStuck(c: Config, run: seq<State>, i: nat, t: ThreadId)
    requires IsRun(c, run) && i < |run| && t in run[i].pcs && !run[i].pcs[t].Outside?
    requires run[i].pcs[t].Waiting? ==> run[i].pcs[t].deadline <= run[i].now
    ensures CanGoOn(c, run[i], t)
  {
    RunHasInv(c, run, i);
    var s, pc := run[i], run[i].pcs[t];
    assert PcOk(c, pc);
    match pc
    case Outside =>
    case Admitted(_, _) => AskingGoesOn(c, s, t);
    case Asking(_, _, _) => AskingGoesOn(c, s, t);
    case Waiting(_, _, _) => AskingGoesOn(c, s, t);
    case ReaperArmed(_) => ReaperGoesOn(c, s, t);
    case Evicting(_, _) => ReaperGoesOn(c, s, t);
    case ExpiryArmed(_) => ExpiryGoesOn(c, s, t);
    case NextExpiry(_) => ExpiryGoesOn(c, s, t);
    case Dropping(_, _) => ExpiryGoesOn(c, s, t);
    case Holding(_, _, stage) =>
      if stage.Sending? {
        SenderGoesOn(c, s, t);
      } else if stage.Leased? || stage.Finished? || stage.Checking? || stage.Handing? {
        HolderGoesOn(c, s, t);
      } else if stage.Launching? || stage.Handshaking? || stage.Spawned? {
        SpawnGoesOn(c, s, t);
      } else {
        ChildIsHandled(c, s, t);
      }
  }

  // ---------- Every lease gets a result ----------

  ghost predicate HasLease(s: State, t: ThreadId, w: WorkerId, job: Job) {
    t in s.pcs && s.pcs[t].Holding? && s.pcs[t].w == w && s.pcs[t].job == job
  }

  lemma ResultStep(c: Config, s: State, s': State, u: ThreadId, kind: Kind, t: ThreadId)
    requires Does(c, s, s', u, kind) && t in s'.pcs && s'.pcs[t].Holding? && HasResult(s'.pcs[t].stage)
    requires !s'.pcs[t].stage.Finished?
    ensures HasLease(s, t, s'.pcs[t].w, s'.pcs[t].job) && HasResult(s.pcs[t].stage)
  {
  }

  /** Before a worker is checked, recycled or handed back, the request that it was leased for has come to a
      result, an answer, a failure or an exception, and the lease has gone on since. */
  lemma {:induction false} EveryLeaseGetsAResult(c: Config, run: seq<State>, i: nat, t: ThreadId) returns (k: nat)
    requires IsRun(c, run) && i < |run| && t in run[i].pcs && run[i].pcs[t].Holding? && HasResult(run[i].pcs[t].stage)
    ensures k <= i && forall j | k <= j <= i :: HasLease(run[j], t, run[i].pcs[t].w, run[i].pcs[t].job)
    ensures HasLease(run[k], t, run[i].pcs[t].w, run[i].pcs[t].job) && run[k].pcs[t].stage.Finished?
  {
    if run[i].pcs[t].stage.Finished? {
      k := i;
    } else {
      var u, kind := HappensAt(c, run, i - 1);
      ResultStep(c, run[i - 1], run[i], u, kind, t);
      k := EveryLeaseGetsAResult(c, run, i - 1, t);
    }
  }

  // ---------- Tickets ----------

  lemma {:induction false} TicketsGrow(c: Config, run: seq<State>, i: nat, j: nat)
    requires IsRun(c, run) && i <= j < |run|
    ensures run[i].ticket <= run[j].ticket
    decreases j
  {
    if i < j {
      TicketsGrow(c, run, i, j - 1);
      var t, kind := HappensAt(c, run, j - 1);
    }
  }

  /** In this step thread t sends a request. */
  ghost predicate Sends(s: State, s': State, t: ThreadId) {
    && t in s.pcs && t in s'.pcs && s.pcs[t] != s'.pcs[t]
    && s'.pcs[t].Holding? && s'.pcs[t].stage.Awaiting?
  }

  lemma SendTakesTicket(c: Config, run: seq<State>, i: nat, t: ThreadId)
    requires IsRun(c, run) && i + 1 < |run| && Sends(run[i], run[i + 1], t)
    ensures run[i + 1].pcs[t].stage.ticket == run[i].ticket < run[i + 1].ticket
  {
    var u, kind := HappensAt(c, run, i);
  }

  /** No two requests of a run carry the same ticket. */
  lemma TicketsAreFresh(c: Config, run: seq<State>, i: nat, t: ThreadId, j: nat, u: ThreadId)
    requires IsRun(c, run) && i < j && j + 1 < |run|
    requires Sends(run[i], run[i + 1], t) && Sends(run[j], run[j + 1], u)
    ensures run[i + 1].pcs[t].stage.ticket < run[j + 1].pcs[u].stage.ticket
  {
    SendTakesTicket(c, run, i, t);
    SendTakesTicket(c, run, j, u);
    TicketsGrow(c, run, i + 1, j);
  }

  // ---------- The session reaper ----------

  /** The session reaper takes the sessions that it picked one after the other: it asks for the worker of
      the next, goes on with the others if it does not get it, and drops the session if it did. */
  lemma ReaperGoesThroughAll(c: Config, run: seq<State>, i: nat, t: ThreadId)
    requires IsRun(c, run) && i + 1 < |run| && t in run[i].pcs && t in run[i + 1].pcs
    requires run[i + 1].pcs[t] != run[i].pcs[t]
    ensures var s, pc, pc' := run[i], run[i].pcs[t], run[i + 1].pcs[t];
            && (pc == NextExpiry([]) ==> pc' == Outside)
            && (pc.NextExpiry? && pc.rest != [] ==>
                  pc'.Asking? && pc'.want == This(pc.rest[0].1) && pc'.job == Expire(pc.rest[0].0, pc.rest[1..])
                  && pc'.deadline == s.now + 2)
            && (pc.Asking? && pc.job.Expire? ==> pc'.Holding? || pc'.Waiting? || pc' == NextExpiry(pc.job.rest))
            && (pc.Holding? && pc.job.Expire? ==> pc'.Holding? || pc' == Dropping(pc.job.sid, pc.job.rest))
            && (pc.Dropping? ==> pc' == NextExpiry(pc.rest) && pc.sid !in run[i + 1].pool.active)
  {
    var u, kind := HappensAt(c, run, i);
  }

  // ---------- After shutdown ----------

  /** Once the pool is down no thread enters it but to reset a session. */
  lemma NothingBeginsAfterShutdown(c: Config, run: seq<State>, i: nat, t: ThreadId)
    requires IsRun(c, run) && i + 1 < |run| && run[i].pool.down
    requires t in run[i].pcs && run[i].pcs[t] == Outside && t in run[i + 1].pcs
    ensures run[i + 1].pcs[t] == Outside || (run[i + 1].pcs[t].Asking? && run[i + 1].pcs[t].job.Reset?)
  {
    var u, kind := HappensAt(c, run, i);
  }
}
