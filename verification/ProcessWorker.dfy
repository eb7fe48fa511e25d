/** One worker wrapper used by one thread at a time, and the loop that its child runs.

    What the child and the pipes do is an input: every method takes the outcomes of the
    system calls it makes, and is proved for all of them. */
module ProcessWorker {
  import opened Wrappers

  type Request = string

  // ---------- The child ----------

  /** What the child reads: a dict, some other object, or bytes that do not decode. */
  datatype Incoming = Dict(request: Request) | NotDict | Garbage

  /** What the child writes. */
  datatype Frame = ReadyFrame | Reply(to: Request, isDict: bool) | ErrorReply

  datatype Handling = Returns | Raises

  /** run_worker_stdio_loop on a finite input, with `room` frames that can be written before a
      write fails: one readiness frame, then one frame for each message, in order.  Only a failing
      write of the readiness frame is not caught. */
  method RunStdioLoop(input: seq<Incoming>, handler: Request -> Handling, room: nat)
    returns (output: seq<Frame>, raised: bool)
    ensures raised <==> room == 0
    ensures raised ==> output == []
    ensures !raised ==> |output| == (if |input| < room then |input| + 1 else room) && output[0] == ReadyFrame
    ensures forall i | 1 <= i < |output| ::
              output[i] == if input[i - 1].Dict? && handler(input[i - 1].request).Returns?
                           then Reply(input[i - 1].request, true) else ErrorReply
  {
    if room == 0 {
      return [], true;
    }
    output, raised := [ReadyFrame], false;
    var i := 0;
    while i < |input|
      invariant 0 <= i <= |input| && i < room && |output| == i + 1 && output[0] == ReadyFrame
      invariant forall k | 1 <= k < |output| ::
                  output[k] == if input[k - 1].Dict? && handler(input[k - 1].request).Returns?
                               then Reply(input[k - 1].request, true) else ErrorReply
    {
      var res: Frame;
      match input[i] {
        case Dict(r) =>
          if handler(r).Returns? {
            res := Reply(r, true);
          } else {
            res := ErrorReply;
          }
        case NotDict => res := ErrorReply;
        case Garbage => res := ErrorReply;
      }
      if i + 1 == room {
        break;
      }
      output := output + [res];
      i := i + 1;
    }
  }

  // ---------- The wrapper ----------

  /** A child process with the frames in flight on its two pipes. */
  datatype Child = Child(running: bool, inbox: seq<Request>, outbox: seq<Frame>)

  /** The outcome of reading the readiness frame. */
  datatype Handshake = Greeted | ClosedEarly(running: bool) | HandshakeTimeout | NotPickle

  datatype Launch = PopenFails | Launched(handshake: Handshake)

  datatype Write = Written | Broken | Unencodable

  /** What is on the pipe when the read ends: an answer, end of file, nothing before the
      deadline, or something that makes the reader raise.  In the end a shutdown may have taken the
      process away before the deadline, so that the timeout's handler raises. */
  datatype Reaction = Answers(isDict: bool) | HangsUp | TooLate | Corrupts | TooLateAndGone

  datatype Code = WORKER_SPAWN_FAILED | WORKER_PIPE_BROKEN | EXECUTION_TIMEOUT | WORKER_CRASHED | EMPTY_RESPONSE

  datatype Outcome = Answered(frame: Frame) | Failed(code: Code) | Raised

  class BaseProcessWorker {
    var process: Option<Child>
    var tasksExecuted: nat

    predicate IsAlive()
      reads this
    {
      process.Some? && process.value.running
    }

    /** Nothing is in flight on the pipes of a live child. */
    ghost predicate Valid()
      reads this
    {
      IsAlive() ==> process.value.inbox == [] && process.value.outbox == []
    }

    constructor (launch: Launch)
      ensures Valid() && tasksExecuted == 0
      ensures IsAlive() <==> LaunchWorks(launch)
    {
      process, tasksExecuted := None, 0;
      new;
      Spawn(launch);
    }

    static predicate LaunchWorks(launch: Launch) {
      launch.Launched? && (launch.handshake.Greeted? || launch.handshake == ClosedEarly(true))
    }

    /** _spawn.  A handshake that times out or raises ends in a kill and leaves the count. */
    method Spawn(launch: Launch)
      requires !IsAlive()
      modifies this
      ensures Valid() && (IsAlive() <==> LaunchWorks(launch))
      ensures tasksExecuted == if launch.Launched? && (launch.handshake.Greeted? || launch.handshake.ClosedEarly?)
                               then 0 else old(tasksExecuted)
    {
      match launch {
        case PopenFails => Kill();
        case Launched(handshake) =>
          process := Some(Child(true, [], if handshake.Greeted? then [ReadyFrame] else []));
          match handshake {
            case Greeted =>
              process := Some(process.value.(outbox := process.value.outbox[1..]));
              tasksExecuted := 0;
            case ClosedEarly(running) =>
              process := Some(process.value.(running := running));
              tasksExecuted := 0;
            case HandshakeTimeout => Kill();
            case NotPickle => Kill();
          }
      }
    }

    method Kill()
      modifies this`process
      ensures process == None
    {
      process := None;
    }

    /** execute: an answer is the child's answer to this request, every failure with a code
        leaves the child dead, and the count goes up by one exactly for an answer. */
    method Execute(payload: Request, launch: Launch, write: Write, reaction: Reaction) returns (res: Outcome)
      requires Valid()
      modifies this
      ensures Valid()
      ensures res.Answered? <==> (old(IsAlive()) || LaunchWorks(launch)) && write.Written? && reaction == Answers(true)
      ensures res.Answered? ==> res.frame == Reply(payload, true) && IsAlive()
      ensures res.Answered? ==> tasksExecuted == (if old(IsAlive()) then old(tasksExecuted) else 0) + 1
      ensures res.Failed? ==> !IsAlive()
      ensures res == Raised
              <==> (old(IsAlive()) || LaunchWorks(launch))
                   && (write.Unencodable? || (write.Written? && reaction.TooLateAndGone?))
      ensures res == Raised && write.Written? ==> !IsAlive()
      ensures res == Failed(WORKER_SPAWN_FAILED) <==> !old(IsAlive()) && !LaunchWorks(launch)
      ensures res == Failed(WORKER_PIPE_BROKEN) <==> (old(IsAlive()) || LaunchWorks(launch)) && write.Broken?
      ensures res == Failed(EXECUTION_TIMEOUT)
              <==> (old(IsAlive()) || LaunchWorks(launch)) && write.Written? && reaction.TooLate?
      ensures res == Failed(WORKER_CRASHED)
              <==> (old(IsAlive()) || LaunchWorks(launch)) && write.Written? && reaction.Corrupts?
      ensures !res.Answered? && old(IsAlive()) ==> tasksExecuted == old(tasksExecuted)
    {
      if !IsAlive() {
        Spawn(launch);
        if !IsAlive() {
          return Failed(WORKER_SPAWN_FAILED);
        }
      }
      match write {
        case Broken =>
          Kill();
          return Failed(WORKER_PIPE_BROKEN);
        case Unencodable => return Raised;
        case Written => process := Some(process.value.(inbox := process.value.inbox + [payload]));
      }
      match reaction {
        case TooLate =>
          Kill();
          return Failed(EXECUTION_TIMEOUT);
        case TooLateAndGone =>
          process := None;
          return Raised;
        case Corrupts =>
          Kill();
          return Failed(WORKER_CRASHED);
        case HangsUp =>
          Kill();
          return Failed(EMPTY_RESPONSE);
        case Answers(isDict) =>
          ChildAnswers(isDict);
          var resp := process.value.outbox[0];
          process := Some(process.value.(outbox := process.value.outbox[1..]));
          if !isDict {
            Kill();
            return Failed(EMPTY_RESPONSE);
          }
          tasksExecuted := tasksExecuted + 1;
          return Answered(resp);
      }
    }

    /** The child takes the oldest request and answers it. */
    method ChildAnswers(isDict: bool)
      requires IsAlive() && process.value.inbox != []
      modifies this`process
      ensures process == Some(Child(true, old(process.value.inbox)[1..],
                                    old(process.value.outbox) + [Reply(old(process.value.inbox)[0], isDict)]))
    {
      var p := process.value;
      process := Some(Child(true, p.inbox[1..], p.outbox + [Reply(p.inbox[0], isDict)]));
    }
  }
}
