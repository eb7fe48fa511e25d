/** What the process pool's model leaves out by taking `kill` of BaseProcessWorker as one step: `kill` reads
    the wrapper's `process`, clears it, and only then signals what it read, while another thread may be
    putting a new child there.  Only a shutdown kills a worker that another thread holds. */
module KillRace {
  import opened Wrappers

  type Child = nat

  /** The wrapper's `process`, the children that run, and what kill has read. */
  datatype State = State(process: Option<Child>, running: set<Child>, read: Option<Child>)

  datatype Event = Read | Clear | Signal | Popen | Assign

  /** One event; `child` is the one that is being spawned. */
  function After(s: State, e: Event, child: Child): State {
    match e
    case Read => s.(read := s.process)
    case Clear => s.(process := None)
    case Signal => if s.read.Some? then s.(running := s.running - {s.read.value}) else s
    case Popen => s.(running := s.running + {child})
    case Assign => s.(process := Some(child))
  }

  function AfterAll(s: State, events: seq<Event>, child: Child): State
    decreases |events|
  {
    if events == [] then s else AfterAll(After(s, events[0], child), events[1..], child)
  }

  const KILL := [Read, Clear, Signal]

  /** Kill and spawn of one wrapper, with Popen behind the first p events of kill and the assignment behind
      the first a. */
  function Interleaved(p: nat, a: nat): seq<Event>
    requires p <= a <= 3
  {
    KILL[..p] + [Popen] + KILL[p..a] + [Assign] + KILL[a..]
  }

  /** A running child that its wrapper does not know. */
  predicate IsOrphan(s: State, child: Child) {
    child in s.running && s.process != Some(child)
  }

  lemma TwoMore(s: State, e1: Event, e2: Event, rest: seq<Event>, child: Child)
    ensures AfterAll(s, [e1, e2] + rest, child) == AfterAll(After(After(s, e1, child), e2, child), rest, child)
  {
    assert ([e1, e2] + rest)[1..] == [e2] + rest && ([e2] + rest)[1..] == rest;
  }

  lemma FiveEvents(s: State, e1: Event, e2: Event, e3: Event, e4: Event, e5: Event, child: Child)
    ensures AfterAll(s, [e1, e2, e3, e4, e5], child) ==
            After(After(After(After(After(s, e1, child), e2, child), e3, child), e4, child), e5, child)
  {
    assert [e1, e2, e3, e4, e5] == [e1, e2] + [e3, e4, e5] && [e3, e4, e5] == [e3, e4] + [e5];
    TwoMore(s, e1, e2, [e3, e4, e5], child);
    TwoMore(After(After(s, e1, child), e2, child), e3, e4, [e5], child);
  }

  /** The new child loses its wrapper exactly if it is assigned between the read and the clear; then it also
      outlives the kill. */
  lemma OrphanExactlyIfAssignedBetween(s: State, child: Child, p: nat, a: nat)
    requires p <= a <= 3 && child !in s.running && s.process != Some(child)
    ensures IsOrphan(AfterAll(s, Interleaved(p, a), child), child) <==> a == 1
  {
    assert KILL[..0] == [] && KILL[..1] == [Read] && KILL[..2] == [Read, Clear] && KILL[..3] == KILL;
    assert KILL[0..0] == [] && KILL[1..1] == [] && KILL[2..2] == [] && KILL[3..3] == [];
    assert KILL[1..] == [Clear, Signal] && KILL[2..] == [Signal] && KILL[3..] == [];
    var e := Interleaved(p, a);
    assert e == [e[0], e[1], e[2], e[3], e[4]];
    FiveEvents(s, e[0], e[1], e[2], e[3], e[4], child);
  }
}
