/** In-flight admission of the compute server: a bounded semaphore and a map with one counter
    per shared session, changed in separate steps by concurrent requests. */
module Admission {
  type RequestId = nat
  type SessionId = string

  datatype Limits = Limits(maxInflight: nat, maxPerSession: int)

  /** Where a request is.  `sid` is "" for a request without a shared session; the source
      treats an empty name like none. */
  datatype Phase =
    | Outside
    | Permitted(sid: SessionId)   // has a permit, its session is still unchecked
    | Rejecting                   // its session is full, the permit has to go back
    | Admitted(sid: SessionId)
    | Leaving                     // its session is uncounted, the permit has to go back

  datatype State = State(permits: int, counts: map<SessionId, int>, phases: map<RequestId, Phase>)

  predicate HoldsPermit(p: Phase) { !p.Outside? }

  predicate CountsFor(p: Phase, sid: SessionId) { p == Admitted(sid) }

  ghost function Permitting(s: State): set<RequestId> {
    set r | r in s.phases && HoldsPermit(s.phases[r])
  }

  ghost function Counting(s: State, sid: SessionId): set<RequestId> {
    set r | r in s.phases && CountsFor(s.phases[r], sid)
  }

  function Used(counts: map<SessionId, int>, sid: SessionId): int {
    if sid in counts then counts[sid] else 0
  }

  function Counted(counts: map<SessionId, int>, sid: SessionId): map<SessionId, int> {
    counts[sid := Used(counts, sid) + 1]
  }

  function Uncounted(counts: map<SessionId, int>, sid: SessionId): map<SessionId, int> {
    if Used(counts, sid) <= 1 then counts - {sid} else counts[sid := counts[sid] - 1]
  }

  datatype Step = Acquire(sid: SessionId) | Refuse | CheckSession | GiveBack | Uncount

  /** One step of request r. */
  ghost predicate NextStep(l: Limits, s: State, s': State, r: RequestId, step: Step) {
    r in s.phases &&
    match step
    case Acquire(sid) =>
      && s.phases[r].Outside? && s.permits > 0
      && s' == s.(permits := s.permits - 1, phases := s.phases[r := Permitted(sid)])
    case Refuse =>
      s.phases[r].Outside? && s.permits == 0 && s' == s
    case CheckSession =>
      && s.phases[r].Permitted?
      && var sid := s.phases[r].sid;
         if sid == "" then s' == s.(phases := s.phases[r := Admitted(sid)])
         else if Used(s.counts, sid) >= l.maxPerSession then s' == s.(phases := s.phases[r := Rejecting])
         else s' == s.(counts := Counted(s.counts, sid), phases := s.phases[r := Admitted(sid)])
    case GiveBack =>
      && (s.phases[r].Rejecting? || s.phases[r].Leaving?)
      && s' == s.(permits := s.permits + 1, phases := s.phases[r := Outside])
    case Uncount =>
      && s.phases[r].Admitted?
      && var sid := s.phases[r].sid;
         s' == s.(counts := if sid == "" then s.counts else Uncounted(s.counts, sid),
                  phases := s.phases[r := Leaving])
  }

  ghost predicate Init(l: Limits, s: State) {
    s.permits == l.maxInflight && s.counts == map[] && forall r | r in s.phases :: s.phases[r].Outside?
  }

  /** Permits are conserved; a session is in the map exactly when it has admitted requests that
      have not been released, with their number as its count, which is within the cap. */
  ghost predicate Inv(l: Limits, s: State) {
    && 0 <= s.permits
    && s.permits + |Permitting(s)| == l.maxInflight
    && (forall sid | sid in s.counts :: sid != "" && 1 <= s.counts[sid] <= l.maxPerSession)
    && (forall sid | sid != "" :: Used(s.counts, sid) == |Counting(s, sid)|)
  }

  lemma InitHasInv(l: Limits, s: State)
    requires Init(l, s)
    ensures Inv(l, s)
  {
    assert Permitting(s) == {};
    assert forall sid :: Counting(s, sid) == {};
  }

  /** How one request's move changes the number of permits in use. */
  lemma MovePermits(s: State, s': State, r: RequestId, p: Phase)
    requires r in s.phases && s'.phases == s.phases[r := p]
    ensures |Permitting(s')| == |Permitting(s)| - (if HoldsPermit(s.phases[r]) then 1 else 0)
                                + (if HoldsPermit(p) then 1 else 0)
  {
    var rest := Permitting(s) - {r};
    assert Permitting(s) == if HoldsPermit(s.phases[r]) then rest + {r} else rest;
    assert Permitting(s') == if HoldsPermit(p) then rest + {r} else rest;
  }

  /** How one request's move changes the number of requests counted for a session. */
  lemma MoveCounts(s: State, s': State, r: RequestId, p: Phase, sid: SessionId)
    requires r in s.phases && s'.phases == s.phases[r := p]
    ensures |Counting(s', sid)| == |Counting(s, sid)| - (if CountsFor(s.phases[r], sid) then 1 else 0)
                                   + (if CountsFor(p, sid) then 1 else 0)
  {
    var rest := Counting(s, sid) - {r};
    assert Counting(s, sid) == if CountsFor(s.phases[r], sid) then rest + {r} else rest;
    assert Counting(s', sid) == if CountsFor(p, sid) then rest + {r} else rest;
  }

  lemma StepKeepsInv(l: Limits, s: State, s': State, r: RequestId, step: Step)
    requires Inv(l, s) && NextStep(l, s, s', r, step)
    ensures Inv(l, s')
  {
    if !step.Refuse? {
      var p := s'.phases[r];
      forall sid | sid != "" ensures Used(s'.counts, sid) == |Counting(s', sid)| {
        MoveCounts(s, s', r, p, sid);
        if CountsFor(s.phases[r], sid) {
          assert r in Counting(s, sid);
        }
      }
      MovePermits(s, s', r, p);
    }
  }

  ghost predicate Next(l: Limits, s: State, s': State) {
    exists r, step :: NextStep(l, s, s', r, step)
  }

  ghost predicate Follows(l: Limits, run: seq<State>, i: nat)
    requires i + 1 < |run|
  {
    Next(l, run[i], run[i + 1])
  }

  ghost predicate IsRun(l: Limits, run: seq<State>) {
    run != [] && Init(l, run[0]) && forall i: nat | i + 1 < |run| :: Follows(l, run, i)
  }

  lemma {:induction false} RunHasInv(l: Limits, run: seq<State>, i: nat)
    requires IsRun(l, run) && i < |run|
    ensures Inv(l, run[i])
  {
    if i == 0 {
      InitHasInv(l, run[0]);
    } else {
      RunHasInv(l, run, i - 1);
      assert Follows(l, run, i - 1);
      var r, step :| NextStep(l, run[i - 1], run[i], r, step);
      StepKeepsInv(l, run[i - 1], run[i], r, step);
    }
  }

  /** The bounded semaphore is never released above its bound. */
  lemma NeverOverReleased(l: Limits, run: seq<State>, i: nat, r: RequestId)
    requires IsRun(l, run) && i < |run| && r in run[i].phases
    requires run[i].phases[r].Rejecting? || run[i].phases[r].Leaving?
    ensures run[i].permits < l.maxInflight
  {
    RunHasInv(l, run, i);
    assert r in Permitting(run[i]);
  }

  /** When no request is under way, everything is back as it was at the start. */
  lemma EverythingComesBack(l: Limits, run: seq<State>, i: nat)
    requires IsRun(l, run) && i < |run| && forall r | r in run[i].phases :: run[i].phases[r].Outside?
    ensures run[i].permits == l.maxInflight && run[i].counts == map[]
  {
    RunHasInv(l, run, i);
    var s := run[i];
    assert Permitting(s) == {};
    forall sid ensures sid !in s.counts {
      assert Counting(s, sid) == {};
    }
  }

  /** The two limits bound the admitted requests in every reachable state. */
  lemma LimitsHold(l: Limits, run: seq<State>, i: nat, sid: SessionId)
    requires IsRun(l, run) && i < |run|
    ensures |Permitting(run[i])| <= l.maxInflight
    ensures sid != "" && Counting(run[i], sid) != {} ==> |Counting(run[i], sid)| <= l.maxPerSession
  {
    RunHasInv(l, run, i);
  }

  // ---------- The closures of create_wsgi_app, run by one request alone ----------

  datatype Refusal = None | InflightLimit | SessionInflightLimit

  class Inflight {
    const limits: Limits
    var permits: int
    var sessionInflight: map<SessionId, int>

    constructor (limits: Limits)
      ensures this.limits == limits && permits == limits.maxInflight && sessionInflight == map[]
    {
      this.limits := limits;
      permits, sessionInflight := limits.maxInflight, map[];
    }

    /** _acquire_inflight: a refused request leaves no trace. */
    method Acquire(sid: SessionId) returns (refusal: Refusal)
      requires 0 <= permits
      modifies this
      ensures 0 <= permits
      ensures refusal == InflightLimit <==> old(permits) == 0
      ensures refusal == SessionInflightLimit
              <==> old(permits) > 0 && sid != "" && Used(old(sessionInflight), sid) >= limits.maxPerSession
      ensures refusal != None ==> permits == old(permits) && sessionInflight == old(sessionInflight)
      ensures refusal == None ==> permits == old(permits) - 1
      ensures refusal == None ==>
                sessionInflight == if sid == "" then old(sessionInflight) else Counted(old(sessionInflight), sid)
    {
      if permits == 0 {
        return InflightLimit;
      }
      permits := permits - 1;
      if sid != "" {
        var used := Used(sessionInflight, sid);
        if used >= limits.maxPerSession {
          permits := permits + 1;
          return SessionInflightLimit;
        }
        sessionInflight := sessionInflight[sid := used + 1];
      }
      return None;
    }

    /** _release_inflight. */
    method Release(sid: SessionId)
      requires 0 <= permits < limits.maxInflight
      modifies this
      ensures permits == old(permits) + 1
      ensures sessionInflight == if sid == "" then old(sessionInflight) else Uncounted(old(sessionInflight), sid)
    {
      if sid != "" {
        var used := Used(sessionInflight, sid);
        if used <= 1 {
          sessionInflight := sessionInflight - {sid};
        } else {
          sessionInflight := sessionInflight[sid := used - 1];
        }
      }
      permits := permits + 1;
    }

    /** What wsgi_app does around run_execute: whatever the outcome, the state is as before. */
    method Guarded(sid: SessionId) returns (refusal: Refusal)
      requires 0 <= permits <= limits.maxInflight
      requires forall k | k in sessionInflight :: sessionInflight[k] >= 1
      modifies this
      ensures permits == old(permits) && sessionInflight == old(sessionInflight)
    {
      refusal := Acquire(sid);
      if refusal == None {
        Release(sid);
      }
    }
  }
}
