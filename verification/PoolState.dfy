/** The state that the threads of a FormulaProcessPool share, and one function for
    each block of code that runs while the pool's lock is held.

    Workers and sessions are identified by value: a worker by its id, a session by
    its name.  Each worker wrapper owns at most one child process, whose two pipes
    carry whole frames. */
module PoolState {
  type WorkerId = nat
  type SessionId = string

  /** `hash` stands for Python's built-in hash of a session name: some fixed function. */
  datatype Config = Config(workers: seq<WorkerId>, maxTasks: int, idleTtl: int, sessionTtl: int,
                           hash: SessionId -> int)
  {
    ghost predicate Valid() {
      forall i, j :: 0 <= i < j < |workers| ==> workers[i] != workers[j]
    }

    ghost function All(): set<WorkerId> {
      set i | 0 <= i < |workers| :: workers[i]
    }

    /** The worker that sticky routing selects for a session. */
    function Target(s: SessionId): (w: WorkerId)
      requires workers != []
      ensures w in All()
    {
      workers[Slot(hash(s), |workers|)]
    }
  }

  /** abs(hash) % n: what is left of the hash's magnitude once multiples of n are taken off. */
  function Slot(hash: int, n: nat): (i: nat)
    requires n > 0
    ensures i < n && exists k: nat :: SlotOf(hash, n, k, i)
  {
    var size := if hash < 0 then -hash else hash;
    assert size == (size / n) * n + size % n;
    assert SlotOf(hash, n, size / n, size % n);
    size % n
  }

  predicate SlotOf(hash: int, n: nat, k: nat, i: nat) {
    hash == k * n + i || -hash == k * n + i
  }

  /** What a child writes: its readiness message, then one answer for each request. */
  datatype Frame = Ready | Answer(ticket: nat)

  /** A worker wrapper and its child.  `inbox` and `outbox` are the frames in flight on
      the child's stdin and stdout, `open` says that the child has not closed its stdout,
      `answered` is the child's own count of answers, and `tasks` is the wrapper's
      `tasks_executed`. */
  datatype Proc = Proc(alive: bool, started: bool, open: bool, inbox: seq<nat>, outbox: seq<Frame>,
                       answered: nat, tasks: nat)
  {
    function Killed(): Proc { this.(alive := false) }

    /** A child that was just launched: new pipes, nothing written yet. */
    function Launched(): Proc { Proc(true, false, true, [], [], 0, tasks) }

    /** Nothing is in flight, and the wrapper's count is the child's count. */
    ghost predicate Quiet() {
      (started || !open) && inbox == [] && outbox == [] && tasks == answered
    }
  }

  datatype Pool = Pool(workers: seq<WorkerId>, idle: set<WorkerId>, lastActive: map<WorkerId, int>, down: bool,
                       active: map<SessionId, WorkerId>, bound: map<WorkerId, set<SessionId>>,
                       touched: map<SessionId, int>, procs: map<WorkerId, Proc>)

  /** A pool built at time `now`: every worker is idle, and its child is up and quiet, or dead. */
  ghost predicate FreshPool(c: Config, p: Pool, now: int) {
    && c.Valid()
    && p.workers == c.workers
    && p.idle == c.All() == p.procs.Keys
    && p.lastActive.Keys == c.All() && (forall w | w in p.lastActive :: p.lastActive[w] == now)
    && !p.down
    && p.active == map[] && p.bound == map[] && p.touched == map[]
    && (forall w | w in p.procs :: p.procs[w].alive ==> p.procs[w].Quiet())
  }

  function Lookup<K, V>(m: map<K, V>, k: K, default: V): V {
    if k in m then m[k] else default
  }

  function Kill(p: Pool, w: WorkerId): Pool
    requires w in p.procs
  {
    p.(procs := p.procs[w := p.procs[w].Killed()])
  }

  function Lease(p: Pool, w: WorkerId): Pool {
    p.(idle := p.idle - {w})
  }

  /** The locked block at the end of `release_worker`, without its notify. */
  function GiveBack(p: Pool, w: WorkerId, now: int): Pool
    requires w in p.procs
  {
    if p.down then Kill(p, w)
    else p.(idle := p.idle + {w}, lastActive := p.lastActive[w := now])
  }

  /** `shutdown`, without its notify. */
  function TakeDown(p: Pool): Pool {
    if p.down then p
    else p.(workers := [], idle := {}, lastActive := map[], down := true,
            procs := map w | w in p.procs :: if w in p.workers then p.procs[w].Killed() else p.procs[w])
  }

  /** The workers that the idle reaper picks. */
  function StaleWorkers(p: Pool, ttl: int, seen: int): set<WorkerId>
    requires p.idle <= p.procs.Keys
  {
    set w | w in p.idle && p.procs[w].alive && seen - Lookup(p.lastActive, w, seen) >= ttl
  }

  /** What the idle reaper does under its second lock, without the notify. */
  function Readd(p: Pool, stale: set<WorkerId>): Pool {
    if p.down then p else p.(idle := p.idle + stale)
  }

  /** The session and worker pairs that the session reaper picks. */
  function StaleSessions(p: Pool, ttl: int, seen: int): map<SessionId, WorkerId> {
    map s | s in p.touched && seen - p.touched[s] >= ttl && s in p.active :: p.active[s]
  }

  /** Registration of a shared session on the worker leased for it. */
  function Bind(p: Pool, s: SessionId, w: WorkerId, now: int): Pool {
    p.(active := p.active[s := w],
       bound := p.bound[w := Lookup(p.bound, w, {}) + {s}],
       touched := p.touched[s := now])
  }

  function Touch(p: Pool, s: SessionId, now: int): Pool {
    p.(touched := p.touched[s := now])
  }

  function Without(bound: map<WorkerId, set<SessionId>>, w: WorkerId, s: SessionId): map<WorkerId, set<SessionId>> {
    if w !in bound then bound
    else if bound[w] - {s} == {} then bound - {w}
    else bound[w := bound[w] - {s}]
  }

  /** The map updates shared by `reset_session` and the session reaper. */
  function Unbind(p: Pool, s: SessionId): Pool {
    var p' := p.(touched := p.touched - {s});
    if s in p.active then p'.(active := p.active - {s}, bound := Without(p.bound, p.active[s], s)) else p'
  }

  /** `_clear_worker_sessions_unlocked`. */
  function Clear(p: Pool, w: WorkerId): Pool {
    var gone := Lookup(p.bound, w, {});
    p.(bound := p.bound - {w}, active := p.active - gone, touched := p.touched - gone)
  }

  /** The locked block of `should_recycle_worker`: the new state and whether the worker
      still holds sessions. */
  function CheckSessions(p: Pool, w: WorkerId): (Pool, bool)
    requires w in p.procs
  {
    if p.procs[w].alive then (p, Lookup(p.bound, w, {}) != {}) else (Clear(p, w), false)
  }

  /** Session s is in the set kept for worker w. */
  predicate On(p: Pool, w: WorkerId, s: SessionId) {
    w in p.bound && s in p.bound[w]
  }

  /** The session maps are inverse to each other, no worker has an empty set, every tracked
      session has an activity time, and a session is on the worker its hash selects. */
  ghost predicate MapsAgree(c: Config, p: Pool) {
    && (forall s | s in p.active :: On(p, p.active[s], s))
    && (forall w, s | On(p, w, s) :: s in p.active && p.active[s] == w)
    && (forall w | w in p.bound :: p.bound[w] != {})
    && p.active.Keys <= p.touched.Keys
    && (forall s | s in p.active :: c.workers != [] && p.active[s] == c.Target(s))
  }

  lemma BindKeepsMaps(c: Config, p: Pool, s: SessionId, w: WorkerId, now: int)
    requires MapsAgree(c, p) && c.workers != [] && w == c.Target(s)
    ensures MapsAgree(c, Bind(p, s, w, now))
  {
    var p' := Bind(p, s, w, now);
    assert forall v, x :: On(p', v, x) <==> On(p, v, x) || (v == w && x == s);
  }

  lemma WithoutRemovesOnly(bound: map<WorkerId, set<SessionId>>, w: WorkerId, s: SessionId)
    ensures forall v, x :: v in Without(bound, w, s) && x in Without(bound, w, s)[v]
                           <==> v in bound && x in bound[v] && !(v == w && x == s)
    ensures (forall v | v in bound :: bound[v] != {}) ==>
              forall v | v in Without(bound, w, s) :: Without(bound, w, s)[v] != {}
  {
    if w in bound {
      assert forall x :: x in bound[w] - {s} <==> x in bound[w] && x != s;
    }
  }

  lemma UnbindKeepsMaps(c: Config, p: Pool, s: SessionId)
    requires MapsAgree(c, p)
    ensures MapsAgree(c, Unbind(p, s))
    ensures s !in Unbind(p, s).active
  {
    var p' := Unbind(p, s);
    if s in p.active {
      assert On(p, p.active[s], s);
      WithoutRemovesOnly(p.bound, p.active[s], s);
      assert forall v, x :: On(p', v, x) <==> On(p, v, x) && !(v == p.active[s] && x == s);
    } else {
      assert forall v, x :: On(p', v, x) <==> On(p, v, x);
    }
  }

  lemma ClearKeepsMaps(c: Config, p: Pool, w: WorkerId)
    requires MapsAgree(c, p)
    ensures MapsAgree(c, Clear(p, w))
    ensures forall s | s in Clear(p, w).active :: p.active[s] != w
  {
    var p' := Clear(p, w);
    assert forall v, x :: On(p', v, x) <==> On(p, v, x) && v != w;
    assert forall x :: x in p'.active <==> x in p.active && !On(p, w, x);
  }
}
