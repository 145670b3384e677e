/** The arecord child process and its pipe (audio_capture.c) against a kernel that may answer
    every system call any way its interface allows. */
module AudioCaptures {
  import opened Base

  const TERM_WAIT_MS: nat := 1000
  const TERM_POLL_MS: nat := 20

  datatype KillAnswer = Delivered | NoSuchProcess | Denied
  datatype WaitAnswer = Reaped | StillRunning | NoChild | WaitFailed
  datatype ReadAnswer = Data(bytes: seq<byte>) | EndOfFile | TryAgain | ReadFailed
  datatype Signal = Terminate | Kill

  /** One system call with its answer. */
  datatype SysCall =
    | AccessCall(ok: bool)
    | PipeCall(ends: Option<(int, int)>)
    // In the child: exec arecord on `device`, writing to the pipe.
    | ForkCall(device: string, pid: int)
    | CloseCall(fd: int)
    | NonBlockCall(fd: int, ok: bool)
    | KillCall(pid: int, signal: Signal, killed: KillAnswer)
    | PollCall(pid: int, polled: WaitAnswer)
    | WaitCall(pid: int, interrupted: bool)
    | ReadCall(fd: int, capacity: nat, got: ReadAnswer)

  /** The children forked and not reaped after the calls of a trace. */
  ghost function ChildrenAfter(trace: seq<SysCall>): set<int> {
    if trace == [] then {} else Reckoned(ChildrenAfter(trace[..|trace| - 1]), trace[|trace| - 1])
  }

  ghost function Reckoned(children: set<int>, call: SysCall): set<int> {
    match call
    case ForkCall(_, pid) => if pid >= 0 then children + {pid} else children
    case PollCall(pid, polled) => if polled in {Reaped, NoChild} then children - {pid} else children
    case WaitCall(pid, interrupted) => if interrupted then children else children - {pid}
    case _ => children
  }

  /** How often a signal interrupted a blocking waitpid. */
  ghost function Interruptions(trace: seq<SysCall>): nat {
    if trace == [] then 0
    else
      var call := trace[|trace| - 1];
      Interruptions(trace[..|trace| - 1]) + if call.WaitCall? && call.interrupted then 1 else 0
  }

  /** Books kept along a trace. */
  ghost predicate Accounts(trace: seq<SysCall>, children: set<int>, interruptions: nat) {
    children == ChildrenAfter(trace) && interruptions == Interruptions(trace)
  }

  lemma OneMoreCall(trace: seq<SysCall>, call: SysCall, children: set<int>, interruptions: nat)
    requires Accounts(trace, children, interruptions)
    ensures Accounts(trace + [call], Reckoned(children, call),
                     interruptions + if call.WaitCall? && call.interrupted then 1 else 0)
  {
    assert (trace + [call])[..|trace|] == trace;
  }

  /** What the kernel keeps for this process, as far as the capture code can change it. */
  class Kernel {
    /** Forked and not yet reaped. */
    var children: set<int>
    /** Descriptors from pipe() not yet closed. */
    var descriptors: set<int>
    /** Children given up on because a blocking waitpid was interrupted by a signal. */
    ghost var orphans: set<int>
    ghost var interruptions: nat
    ghost var polls: nat
    /** Every byte read from a capture pipe so far. */
    ghost var received: seq<byte>
    /** Every call made so far. */
    ghost var trace: seq<SysCall>

    ghost predicate Valid()
      reads this
    {
      && orphans <= children && (interruptions == 0 <==> orphans == {})
      && Accounts(trace, children, interruptions)
    }

    constructor ()
      ensures Valid() && children == {} && descriptors == {} && interruptions == 0 && received == [] && trace == []
    {
      children, descriptors, orphans := {}, {}, {};
      interruptions, polls, received, trace := 0, 0, [], [];
    }

    /** access(path, X_OK) == 0 */
    method Executable() returns (yes: bool)
      requires Valid()
      modifies this`trace
      ensures Valid() && trace == old(trace) + [AccessCall(yes)]
    {
      hide Accounts;
      yes := *;
      OneMoreCall(trace, AccessCall(yes), children, interruptions);
      trace := trace + [AccessCall(yes)];
    }

    method Pipe() returns (ends: Option<(int, int)>)
      requires Valid()
      modifies this`descriptors, this`trace
      ensures Valid() && trace == old(trace) + [PipeCall(ends)]
      ensures ends.None? ==> descriptors == old(descriptors)
      ensures ends.Some? ==> var (r, w) := ends.value;
                && 0 <= r && 0 <= w && r != w && {r, w} !! old(descriptors)
                && descriptors == old(descriptors) + {r, w}
    {
      hide Accounts;
      var r: int, w: int := *, *;
      ends := None;
      if !(r < 0 || w < 0 || r == w || r in descriptors || w in descriptors) {
        descriptors := descriptors + {r, w};
        ends := Some((r, w));
      }
      OneMoreCall(trace, PipeCall(ends), children, interruptions);
      trace := trace + [PipeCall(ends)];
    }

    /** In the parent. A negative answer is a failed fork. */
    method Fork(device: string) returns (pid: int)
      requires Valid()
      modifies this`children, this`trace
      ensures Valid() && trace == old(trace) + [ForkCall(device, pid)]
      ensures pid < 0 ==> children == old(children)
      ensures pid >= 0 ==> 0 < pid && pid !in old(children) && children == old(children) + {pid}
    {
      hide Accounts;
      pid := *;
      if pid <= 0 || pid in children {
        pid := -1;
      }
      OneMoreCall(trace, ForkCall(device, pid), children, interruptions);
      if pid > 0 {
        children := children + {pid};
      }
      trace := trace + [ForkCall(device, pid)];
    }

    method Close(descriptor: int)
      requires Valid() && descriptor in descriptors
      modifies this`descriptors, this`trace
      ensures Valid() && descriptors == old(descriptors) - {descriptor} && trace == old(trace) + [CloseCall(descriptor)]
    {
      hide Accounts;
      OneMoreCall(trace, CloseCall(descriptor), children, interruptions);
      trace := trace + [CloseCall(descriptor)];
      descriptors := descriptors - {descriptor};
    }

    method SetNonBlocking(descriptor: int) returns (ok: bool)
      requires Valid() && descriptor in descriptors
      modifies this`trace
      ensures Valid() && trace == old(trace) + [NonBlockCall(descriptor, ok)]
    {
      hide Accounts;
      ok := *;
      OneMoreCall(trace, NonBlockCall(descriptor, ok), children, interruptions);
      trace := trace + [NonBlockCall(descriptor, ok)];
    }

    method SendSignal(pid: int, signal: Signal) returns (answer: KillAnswer)
      requires Valid()
      modifies this`trace
      ensures Valid() && trace == old(trace) + [KillCall(pid, signal, answer)]
    {
      hide Accounts;
      answer := *;
      OneMoreCall(trace, KillCall(pid, signal, answer), children, interruptions);
      trace := trace + [KillCall(pid, signal, answer)];
    }

    /** waitpid(pid, &status, WNOHANG) */
    method Poll(pid: int) returns (answer: WaitAnswer)
      requires Valid() && pid !in orphans
      modifies this`children, this`polls, this`trace
      ensures Valid() && polls == old(polls) + 1 && trace == old(trace) + [PollCall(pid, answer)]
      ensures answer.Reaped? || answer.NoChild? ==> children == old(children) - {pid}
      ensures answer.StillRunning? || answer.WaitFailed? ==> children == old(children)
    {
      hide Accounts;
      answer := *;
      polls := polls + 1;
      OneMoreCall(trace, PollCall(pid, answer), children, interruptions);
      trace := trace + [PollCall(pid, answer)];
      if answer.Reaped? || answer.NoChild? {
        children := children - {pid};
      }
    }

    /** waitpid(pid, NULL, 0): blocks until the child is gone or a signal interrupts. */
    method Wait(pid: int) returns (ghost interrupted: bool)
      requires Valid() && pid in children && pid !in orphans
      modifies this`children, this`orphans, this`interruptions, this`trace
      ensures Valid() && trace == old(trace) + [WaitCall(pid, interrupted)]
      ensures if interrupted
              then && interruptions == old(interruptions) + 1 && orphans == old(orphans) + {pid}
                   && children == old(children)
              else && interruptions == old(interruptions) && orphans == old(orphans)
                   && children == old(children) - {pid}
    {
      hide Accounts;
      var signalled: bool := *;
      interrupted := signalled;
      OneMoreCall(trace, WaitCall(pid, interrupted), children, interruptions);
      trace := trace + [WaitCall(pid, interrupted)];
      if signalled {
        interruptions, orphans := interruptions + 1, orphans + {pid};
      } else {
        children := children - {pid};
      }
    }

    method Read(descriptor: int, capacity: nat) returns (answer: ReadAnswer)
      requires Valid() && descriptor in descriptors && 0 < capacity
      modifies this`received, this`trace
      ensures Valid() && trace == old(trace) + [ReadCall(descriptor, capacity, answer)]
      ensures answer.Data? ==> 0 < |answer.bytes| <= capacity && received == old(received) + answer.bytes
      ensures !answer.Data? ==> received == old(received)
    {
      hide Accounts;
      answer := *;
      if answer.Data? {
        if |answer.bytes| == 0 {
          answer := EndOfFile;
        } else if |answer.bytes| > capacity {
          answer := Data(answer.bytes[..capacity]);
        }
      }
      received := received + if answer.Data? then answer.bytes else [];
      OneMoreCall(trace, ReadCall(descriptor, capacity, answer), children, interruptions);
      trace := trace + [ReadCall(descriptor, capacity, answer)];
    }
  }

  // ---------- What each operation asks of the kernel, and what it makes of the answers ----------

  /** Start of an inactive capture. On success it holds child `pid` and the read end `fd`. */
  ghost predicate StartDid(calls: seq<SysCall>, device: string, status: Status, pid: int, fd: int) {
    if device == "" then calls == [] && status == ConfigError
    else
      && 1 <= |calls| && calls[0].AccessCall?
      && if !calls[0].ok then |calls| == 1 && status == Unimplemented
         else
           && 2 <= |calls| && calls[1].PipeCall?
           && if calls[1].ends.None? then |calls| == 2 && status == IoError
              else Forked(calls[2..], device, calls[1].ends.value.0, calls[1].ends.value.1, status, pid, fd)
  }

  /** From fork on: a failed fork closes both ends; the parent closes the write end; and if the
      read end cannot be made non-blocking, the child is terminated, waited for and forgotten. */
  ghost predicate Forked(calls: seq<SysCall>, device: string, readEnd: int, writeEnd: int, status: Status,
                         pid: int, fd: int) {
    && 1 <= |calls| && calls[0].ForkCall? && calls[0].device == device
    && if calls[0].pid < 0 then calls[1..] == [CloseCall(readEnd), CloseCall(writeEnd)] && status == ChildProcess
       else
         && 3 <= |calls| && calls[1] == CloseCall(writeEnd) && calls[2].NonBlockCall? && calls[2].fd == readEnd
         && if calls[2].ok then |calls| == 3 && status == Ok && pid == calls[0].pid && fd == readEnd
            else
              && |calls| == 6 && status == IoError
              && calls[3].KillCall? && calls[3].pid == calls[0].pid && calls[3].signal == Terminate
              && calls[4].WaitCall? && calls[4].pid == calls[0].pid && calls[5] == CloseCall(readEnd)
  }

  ghost predicate ReapDid(calls: seq<SysCall>, pid: int, fd: int, status: Status) {
    && 1 <= |calls| && calls[0].PollCall? && calls[0].pid == pid
    && match calls[0].polled
       case StillRunning => |calls| == 1 && status == Ok
       case WaitFailed => |calls| == 1 && status == ChildProcess
       case _ => calls[1..] == [CloseCall(fd)] && status == ChildProcess
  }

  /** Read of an active capture: one call for exactly `capacity` bytes. End of file is always an
      error; a pipe with nothing in it is one only if the child is gone. */
  ghost predicate ReadDid(calls: seq<SysCall>, pid: int, fd: int, capacity: nat, status: Status, bytes: seq<byte>) {
    && 1 <= |calls| && calls[0].ReadCall? && calls[0].fd == fd && calls[0].capacity == capacity
    && (forall i :: 0 < i < |calls| ==> !calls[i].ReadCall?)
    && match calls[0].got
       case Data(data) => |calls| == 1 && status == Ok && bytes == data
       case EndOfFile => status == ChildProcess && bytes == [] && exists s :: ReapDid(calls[1..], pid, fd, s)
       case TryAgain => bytes == [] && ReapDid(calls[1..], pid, fd, status)
       case ReadFailed => |calls| == 1 && status == IoError && bytes == []
  }

  /** Polls of a child until it is gone, a poll fails, or `limit` polls have been made. */
  ghost predicate PollsDid(calls: seq<SysCall>, pid: int, exited: bool, limit: nat) {
    && |calls| <= limit
    && (forall i :: 0 <= i < |calls| ==> calls[i].PollCall? && calls[i].pid == pid)
    && (forall i :: 0 <= i < |calls| - 1 ==> calls[i].polled == StillRunning)
    && (if exited then calls != [] && calls[|calls| - 1].polled in {Reaped, NoChild}
        else (|calls| == limit || (calls != [] && calls[|calls| - 1].polled == WaitFailed))
             && (calls != [] ==> calls[|calls| - 1].polled in {StillRunning, WaitFailed}))
  }

  /** Stop of an active capture: close, SIGTERM, polls, and only if those do not end with the child
      gone, SIGKILL and a blocking wait. */
  ghost predicate StopDid(calls: seq<SysCall>, pid: int, fd: int, status: Status) {
    && 3 <= |calls| && calls[0] == CloseCall(fd)
    && calls[1].KillCall? && calls[1].pid == pid && calls[1].signal == Terminate
    && var exited := calls[|calls| - 1].PollCall?;
       if exited then
         && PollsDid(calls[2..], pid, true, TERM_WAIT_MS / TERM_POLL_MS)
         && status == if calls[1].killed.Denied? then ChildProcess else Ok
       else
         && 4 <= |calls| && PollsDid(calls[2..|calls| - 2], pid, false, TERM_WAIT_MS / TERM_POLL_MS)
         && var kill := calls[|calls| - 2];
            && kill.KillCall? && kill.pid == pid && kill.signal == Signal.Kill
            && calls[|calls| - 1].WaitCall? && calls[|calls| - 1].pid == pid
            && status == if calls[1].killed.Denied? || kill.killed.Denied? then ChildProcess else Ok
  }

  // ---------- When each operation succeeds ----------

  /** Start succeeds if and only if there is a device, arecord can be executed, and pipe, fork and
      fcntl all succeed. */
  lemma StartSucceedsExactly(calls: seq<SysCall>, device: string, status: Status, pid: int, fd: int)
    requires StartDid(calls, device, status, pid, fd)
    ensures status == Ok <==>
            && device != "" && |calls| == 5 && calls[0] == AccessCall(true)
            && calls[1].PipeCall? && calls[1].ends.Some?
            && calls[2].ForkCall? && calls[2].device == device && calls[2].pid >= 0
            && calls[3] == CloseCall(calls[1].ends.value.1) && calls[4] == NonBlockCall(calls[1].ends.value.0, true)
    ensures status == Unimplemented <==> calls == [AccessCall(false)]
    ensures status == ConfigError <==> device == ""
    ensures status == ChildProcess <==> |calls| == 5 && calls[2].ForkCall? && calls[2].pid < 0
  {
  }

  /** Read succeeds if and only if bytes came, or none were there yet and the child still runs. */
  lemma ReadSucceedsExactly(calls: seq<SysCall>, pid: int, fd: int, capacity: nat, status: Status, bytes: seq<byte>)
    requires ReadDid(calls, pid, fd, capacity, status, bytes)
    ensures status == Ok <==>
            calls[0].got.Data? || (calls[0].got.TryAgain? && |calls| > 1 && calls[1] == PollCall(pid, StillRunning))
    ensures status == IoError <==> calls[0].got.ReadFailed?
  {
    if calls[0].got.TryAgain? {
      assert calls[1..][0] == calls[1];
    }
  }

  /** Stop succeeds if and only if no signal was refused, and sends SIGKILL if and only if no poll
      saw the child gone. */
  lemma StopSucceedsExactly(calls: seq<SysCall>, pid: int, fd: int, status: Status)
    requires StopDid(calls, pid, fd, status)
    ensures status == Ok <==> forall i :: 0 <= i < |calls| && calls[i].KillCall? ==> !calls[i].killed.Denied?
    ensures (exists i :: 0 <= i < |calls| && calls[i].KillCall? && calls[i].signal == Signal.Kill)
            <==> forall i :: 0 <= i < |calls| && calls[i].PollCall? ==> calls[i].polled !in {Reaped, NoChild}
  {
    var last := |calls| - 1;
    if calls[last].PollCall? {
      var polls := calls[2..];
      assert forall i :: 2 <= i < |calls| ==> calls[i] == polls[i - 2];
      assert polls[|polls| - 1] == calls[last];
    } else {
      var polls := calls[2..|calls| - 2];
      assert forall i :: 2 <= i < |calls| - 2 ==> calls[i] == polls[i - 2];
      assert calls[|calls| - 2].KillCall?;
    }
  }

  lemma StopAssembled(before: seq<SysCall>, pid: int, fd: int, term: KillAnswer, polls: seq<SysCall>, exited: bool,
                      kill: KillAnswer, interrupted: bool, after: seq<SysCall>)
    requires PollsDid(polls, pid, exited, TERM_WAIT_MS / TERM_POLL_MS)
    requires var polled := before + [CloseCall(fd)] + [KillCall(pid, Terminate, term)] + polls;
             after == if exited then polled
                      else polled + [KillCall(pid, Signal.Kill, kill)] + [WaitCall(pid, interrupted)]
    ensures before <= after
    ensures StopDid(after[|before|..], pid, fd,
                    if term.Denied? || (!exited && kill.Denied?) then ChildProcess else Ok)
  {
    var calls := after[|before|..];
    var head := [CloseCall(fd), KillCall(pid, Terminate, term)];
    if exited {
      assert calls == head + polls;
      assert calls[2..] == polls && calls[|calls| - 1] == polls[|polls| - 1];
    } else {
      assert calls == head + polls + [KillCall(pid, Signal.Kill, kill), WaitCall(pid, interrupted)];
      assert calls[2..|calls| - 2] == polls;
    }
  }

  /** A read that needs no look at the child. */
  lemma ReadEndsAtOnce(before: seq<SysCall>, pid: int, fd: int, capacity: nat, answer: ReadAnswer)
    ensures var after := before + [ReadCall(fd, capacity, answer)];
            && before <= after
            && (answer.Data? ==> ReadDid(after[|before|..], pid, fd, capacity, Ok, answer.bytes))
            && (answer.ReadFailed? ==> ReadDid(after[|before|..], pid, fd, capacity, IoError, []))
  {
    assert (before + [ReadCall(fd, capacity, answer)])[|before|..] == [ReadCall(fd, capacity, answer)];
  }

  /** End of file, or nothing there yet: the child is looked at. */
  lemma ReadThenReaps(before: seq<SysCall>, after: seq<SysCall>, pid: int, fd: int, capacity: nat,
                      answer: ReadAnswer, reaped: Status)
    requires before + [ReadCall(fd, capacity, answer)] <= after
    requires ReapDid(after[|before| + 1..], pid, fd, reaped)
    ensures before <= after
    ensures answer.EndOfFile? ==> ReadDid(after[|before|..], pid, fd, capacity, ChildProcess, [])
    ensures answer.TryAgain? ==> ReadDid(after[|before|..], pid, fd, capacity, reaped, [])
  {
    var calls := after[|before|..];
    assert calls[1..] == after[|before| + 1..];
    assert forall i :: 0 < i < |calls| ==> calls[i] == calls[1..][i - 1];
    assert calls[0] == after[|before|] == (before + [ReadCall(fd, capacity, answer)])[|before|];
  }

  lemma StartWithoutDevice()
    ensures forall pid, fd :: StartDid([], "", ConfigError, pid, fd)
  {
  }

  lemma StartEndsEarly(before: seq<SysCall>, device: string, pid: int, fd: int)
    requires device != ""
    ensures var after := before + [AccessCall(false)]; StartDid(after[|before|..], device, Unimplemented, pid, fd)
    ensures var after := before + [AccessCall(true)] + [PipeCall(None)];
            StartDid(after[|before|..], device, IoError, pid, fd)
  {
    assert (before + [AccessCall(false)])[|before|..] == [AccessCall(false)];
    assert (before + [AccessCall(true)] + [PipeCall(None)])[|before|..] == [AccessCall(true), PipeCall(None)];
  }

  lemma ForkFails(before: seq<SysCall>, device: string, fork: int, readEnd: int, writeEnd: int, pid: int, fd: int)
    requires fork < 0
    ensures var after := before + [ForkCall(device, fork)] + [CloseCall(readEnd)] + [CloseCall(writeEnd)];
            before <= after && Forked(after[|before|..], device, readEnd, writeEnd, ChildProcess, pid, fd)
  {
    var calls := [ForkCall(device, fork), CloseCall(readEnd), CloseCall(writeEnd)];
    assert (before + [ForkCall(device, fork)] + [CloseCall(readEnd)] + [CloseCall(writeEnd)])[|before|..] == calls;
    assert calls[1..] == [CloseCall(readEnd), CloseCall(writeEnd)];
  }

  lemma ForkIsAbandoned(before: seq<SysCall>, device: string, fork: int, readEnd: int, writeEnd: int,
                        term: KillAnswer, interrupted: bool, pid: int, fd: int)
    requires fork >= 0
    ensures var after := before + [ForkCall(device, fork)] + [CloseCall(writeEnd)] + [NonBlockCall(readEnd, false)]
                         + [KillCall(fork, Terminate, term)] + [WaitCall(fork, interrupted)] + [CloseCall(readEnd)];
            before <= after && Forked(after[|before|..], device, readEnd, writeEnd, IoError, pid, fd)
  {
    assert (before + [ForkCall(device, fork)] + [CloseCall(writeEnd)] + [NonBlockCall(readEnd, false)]
            + [KillCall(fork, Terminate, term)] + [WaitCall(fork, interrupted)] + [CloseCall(readEnd)])[|before|..]
        == [ForkCall(device, fork), CloseCall(writeEnd), NonBlockCall(readEnd, false),
            KillCall(fork, Terminate, term), WaitCall(fork, interrupted), CloseCall(readEnd)];
  }

  lemma ForkRecords(before: seq<SysCall>, device: string, fork: int, readEnd: int, writeEnd: int)
    requires fork >= 0
    ensures var after := before + [ForkCall(device, fork)] + [CloseCall(writeEnd)] + [NonBlockCall(readEnd, true)];
            before <= after && Forked(after[|before|..], device, readEnd, writeEnd, Ok, fork, readEnd)
  {
    assert (before + [ForkCall(device, fork)] + [CloseCall(writeEnd)] + [NonBlockCall(readEnd, true)])[|before|..]
        == [ForkCall(device, fork), CloseCall(writeEnd), NonBlockCall(readEnd, true)];
  }

  lemma StartForks(before: seq<SysCall>, piped: seq<SysCall>, after: seq<SysCall>, device: string, status: Status,
                   readEnd: int, writeEnd: int, pid: int, fd: int)
    requires device != "" && piped == before + [AccessCall(true)] + [PipeCall(Some((readEnd, writeEnd)))]
    requires piped <= after && Forked(after[|piped|..], device, readEnd, writeEnd, status, pid, fd)
    ensures before <= after && StartDid(after[|before|..], device, status, pid, fd)
  {
    assert after[|before|..][2..] == after[|piped|..];
  }

  /** A child that outlives the daemon. It ignores SIGTERM for a second, is killed, and a signal
      interrupts the wait for it; start and stop report success all the same. */
  lemma ChildLeftBehind() returns (start: seq<SysCall>, stop: seq<SysCall>)
    ensures StartDid(start, "default", Ok, 7, 3) && StopDid(stop, 7, 3, Ok)
    ensures ChildrenAfter(start + stop) == {7} && Interruptions(start + stop) == 1
  {
    start := [AccessCall(true), PipeCall(Some((3, 4))), ForkCall("default", 7), CloseCall(4), NonBlockCall(3, true)];
    var polls := Repeat(PollCall(7, StillRunning), TERM_WAIT_MS / TERM_POLL_MS);
    var waiting := start + [CloseCall(3)] + [KillCall(7, Terminate, Delivered)] + polls;
    StopAssembled(start, 7, 3, Delivered, polls, false, Delivered, true,
                  waiting + [KillCall(7, Signal.Kill, Delivered)] + [WaitCall(7, true)]);
    stop := (waiting + [KillCall(7, Signal.Kill, Delivered)] + [WaitCall(7, true)])[|start|..];
    StartedOne(start);
    OneMoreCall(start, CloseCall(3), {7}, 0);
    OneMoreCall(start + [CloseCall(3)], KillCall(7, Terminate, Delivered), {7}, 0);
    PollsLeaveIt(start + [CloseCall(3)] + [KillCall(7, Terminate, Delivered)], TERM_WAIT_MS / TERM_POLL_MS);
    OneMoreCall(waiting, KillCall(7, Signal.Kill, Delivered), {7}, 0);
    OneMoreCall(waiting + [KillCall(7, Signal.Kill, Delivered)], WaitCall(7, true), {7}, 0);
    assert start + stop == waiting + [KillCall(7, Signal.Kill, Delivered)] + [WaitCall(7, true)];
  }

  lemma StartedOne(start: seq<SysCall>)
    requires start == [AccessCall(true), PipeCall(Some((3, 4))), ForkCall("default", 7), CloseCall(4),
                       NonBlockCall(3, true)]
    ensures Accounts(start, {7}, 0)
  {
    OneMoreCall([], AccessCall(true), {}, 0);
    assert [] + [AccessCall(true)] == start[..1];
    OneMoreCall(start[..1], start[1], {}, 0);
    assert start[..1] + [start[1]] == start[..2];
    OneMoreCall(start[..2], start[2], {}, 0);
    assert start[..2] + [start[2]] == start[..3];
    OneMoreCall(start[..3], start[3], {7}, 0);
    assert start[..3] + [start[3]] == start[..4];
    OneMoreCall(start[..4], start[4], {7}, 0);
    assert start[..4] + [start[4]] == start;
  }

  lemma {:induction false} PollsLeaveIt(before: seq<SysCall>, count: nat)
    requires Accounts(before, {7}, 0)
    ensures Accounts(before + Repeat(PollCall(7, StillRunning), count), {7}, 0)
    decreases count
  {
    if count == 0 {
      assert before + Repeat(PollCall(7, StillRunning), 0) == before;
    } else {
      PollsLeaveIt(before, count - 1);
      OneMoreCall(before + Repeat(PollCall(7, StillRunning), count - 1), PollCall(7, StillRunning), {7}, 0);
      assert before + Repeat(PollCall(7, StillRunning), count)
             == before + Repeat(PollCall(7, StillRunning), count - 1) + [PollCall(7, StillRunning)];
    }
  }

  class AudioCapture {
    const kernel: Kernel
    var active: bool
    var childPid: int
    var stdoutFd: int

    /** One child and one descriptor exactly while active, besides children whose blocking wait
        was interrupted. */
    ghost predicate Valid()
      reads this, kernel
    {
      && kernel.Valid()
      && (active ==>
            && 0 < childPid && childPid !in kernel.orphans && kernel.children == kernel.orphans + {childPid}
            && 0 <= stdoutFd && kernel.descriptors == {stdoutFd})
      && (!active ==> childPid <= 0 && kernel.children == kernel.orphans && kernel.descriptors == {})
    }

    /** The zeroed struct: descriptor 0 and pid 0 are not the capture's to close or signal. */
    constructor (kernel: Kernel)
      requires kernel.Valid() && kernel.children == {} && kernel.descriptors == {}
      ensures Valid() && !active && this.kernel == kernel
    {
      this.kernel := kernel;
      active, childPid, stdoutFd := false, 0, 0;
    }

    method CloseFd()
      requires kernel.Valid() && (stdoutFd >= 0 ==> stdoutFd in kernel.descriptors)
      modifies this`stdoutFd, kernel`descriptors, kernel`trace
      ensures kernel.Valid() && stdoutFd < 0
      ensures kernel.trace == old(kernel.trace) + (if old(stdoutFd) >= 0 then [CloseCall(old(stdoutFd))] else [])
      ensures kernel.descriptors == old(kernel.descriptors) - (if old(stdoutFd) >= 0 then {old(stdoutFd)} else {})
    {
      if stdoutFd < 0 {
        assert kernel.trace + [] == kernel.trace;
        return;
      }
      kernel.Close(stdoutFd);
      stdoutFd := -1;
    }

    /** True once the child is known to be gone, false on a failed poll or when time is up. */
    method WaitForExit(pid: int, timeoutMs: nat) returns (exited: bool, ghost calls: seq<SysCall>)
      requires kernel.Valid() && pid !in kernel.orphans
      modifies kernel`children, kernel`polls, kernel`trace
      ensures kernel.Valid() && kernel.trace == old(kernel.trace) + calls
      ensures pid > 0 ==> PollsDid(calls, pid, exited, (timeoutMs + TERM_POLL_MS - 1) / TERM_POLL_MS)
      ensures kernel.children == if exited && pid > 0 then old(kernel.children) - {pid} else old(kernel.children)
      ensures pid <= 0 ==> exited
      ensures old(kernel.polls) <= kernel.polls
      ensures TERM_POLL_MS * (kernel.polls - old(kernel.polls)) < timeoutMs + TERM_POLL_MS
    {
      calls := [];
      if pid <= 0 {
        return true, calls;
      }
      var waitedMs := 0;
      while waitedMs < timeoutMs
        invariant kernel.Valid() && kernel.children == old(kernel.children)
        invariant old(kernel.polls) <= kernel.polls && waitedMs == TERM_POLL_MS * (kernel.polls - old(kernel.polls))
        invariant waitedMs < timeoutMs + TERM_POLL_MS && waitedMs == TERM_POLL_MS * |calls|
        invariant kernel.trace == old(kernel.trace) + calls
        invariant forall i :: 0 <= i < |calls| ==> calls[i] == PollCall(pid, StillRunning)
      {
        var answer := kernel.Poll(pid);
        calls := calls + [PollCall(pid, answer)];
        if answer.Reaped? || answer.NoChild? {
          return true, calls;
        }
        if answer.WaitFailed? {
          return false, calls;
        }
        waitedMs := waitedMs + TERM_POLL_MS;
      }
      return false, calls;
    }

    method ReapChild() returns (status: Status)
      requires Valid()
      modifies this, kernel`children, kernel`polls, kernel`descriptors, kernel`trace
      ensures Valid() && status in {Ok, ChildProcess}
      ensures status == Ok ==> active == old(active) && unchanged(this)
      ensures !old(active) ==> status == Ok && unchanged(kernel)
      ensures old(kernel.trace) <= kernel.trace
      ensures old(active) ==> ReapDid(kernel.trace[|old(kernel.trace)|..], old(childPid), old(stdoutFd), status)
    {
      if childPid <= 0 {
        return Ok;
      }
      var answer := kernel.Poll(childPid);
      if answer.StillRunning? {
        return Ok;
      }
      if answer.WaitFailed? {
        return ChildProcess;
      }
      childPid := -1;
      active := false;
      CloseFd();
      return ChildProcess;
    }

    /** A recorder whose pipe cannot be read without blocking is given up. */
    method AbandonChild(pid: int, readEnd: int) returns (ghost term: KillAnswer, ghost interrupted: bool)
      requires kernel.Valid() && pid !in kernel.orphans && kernel.children == kernel.orphans + {pid}
      requires kernel.descriptors == {readEnd}
      modifies kernel`children, kernel`descriptors, kernel`orphans, kernel`interruptions, kernel`trace
      ensures kernel.Valid() && kernel.children == kernel.orphans && kernel.descriptors == {}
      ensures kernel.trace == old(kernel.trace) + [KillCall(pid, Terminate, term)] + [WaitCall(pid, interrupted)]
                              + [CloseCall(readEnd)]
      ensures old(kernel.interruptions) <= kernel.interruptions
    {
      var answer := kernel.SendSignal(pid, Terminate);
      term := answer;
      interrupted := kernel.Wait(pid);
      kernel.Close(readEnd);
    }

    /** Start from the fork on, with both ends of the pipe open. */
    method ForkRecorder(device: string, readEnd: int, writeEnd: int) returns (status: Status)
      requires kernel.Valid() && !active && childPid <= 0 && kernel.children == kernel.orphans
      requires 0 <= readEnd && 0 <= writeEnd && readEnd != writeEnd && kernel.descriptors == {readEnd, writeEnd}
      modifies this, kernel`children, kernel`descriptors, kernel`orphans, kernel`interruptions, kernel`trace
      ensures Valid() && status in {Ok, IoError, ChildProcess} && (status == Ok <==> active)
      ensures old(kernel.trace) <= kernel.trace
      ensures Forked(kernel.trace[|old(kernel.trace)|..], device, readEnd, writeEnd, status, childPid, stdoutFd)
      ensures status == Ok ==> kernel.interruptions == old(kernel.interruptions)
      ensures old(kernel.interruptions) <= kernel.interruptions
    {
      hide Forked;
      ghost var before := kernel.trace;
      var pid := kernel.Fork(device);
      if pid < 0 {
        kernel.Close(readEnd);
        kernel.Close(writeEnd);
        ForkFails(before, device, pid, readEnd, writeEnd, childPid, stdoutFd);
        return ChildProcess;
      }
      kernel.Close(writeEnd);
      var nonBlocking := kernel.SetNonBlocking(readEnd);
      if !nonBlocking {
        ghost var term, interrupted := AbandonChild(pid, readEnd);
        ForkIsAbandoned(before, device, pid, readEnd, writeEnd, term, interrupted, childPid, stdoutFd);
        return IoError;
      }
      childPid, stdoutFd, active := pid, readEnd, true;
      ForkRecords(before, device, pid, readEnd, writeEnd);
      return Ok;
    }

    method Start(device: string) returns (status: Status)
      requires Valid()
      modifies this, kernel`children, kernel`descriptors, kernel`orphans, kernel`interruptions, kernel`trace
      ensures Valid() && old(kernel.trace) <= kernel.trace
      ensures !old(active) ==> StartDid(kernel.trace[|old(kernel.trace)|..], device, status, childPid, stdoutFd)
      ensures device == "" ==> status == ConfigError && unchanged(this) && unchanged(kernel)
      ensures device != "" && old(active) ==> status == Ok && unchanged(this) && unchanged(kernel)
      ensures device != "" ==> (status == Ok <==> active)
      ensures status == Ok ==> kernel.interruptions == old(kernel.interruptions)
      ensures status in {Ok, ConfigError, Unimplemented, IoError, ChildProcess}
      ensures old(kernel.interruptions) <= kernel.interruptions
    {
      hide StartDid, Forked;
      if device == "" {
        StartWithoutDevice();
        assert kernel.trace[|kernel.trace|..] == [];
        return ConfigError;
      }
      if active {
        return Ok;
      }
      childPid, stdoutFd := -1, -1;
      ghost var before := kernel.trace;
      StartEndsEarly(before, device, -1, -1);
      var executable := kernel.Executable();
      if !executable {
        return Unimplemented;
      }
      var ends := kernel.Pipe();
      if ends.None? {
        return IoError;
      }
      var (readEnd, writeEnd) := ends.value;
      ghost var piped := kernel.trace;
      status := ForkRecorder(device, readEnd, writeEnd);
      StartForks(before, piped, kernel.trace, device, status, readEnd, writeEnd, childPid, stdoutFd);
    }

    method Read(capacity: nat) returns (status: Status, bytes: seq<byte>)
      requires Valid()
      modifies this, kernel`children, kernel`descriptors, kernel`polls, kernel`received, kernel`trace
      ensures Valid() && old(kernel.trace) <= kernel.trace
      ensures old(active) && capacity > 0 ==>
                ReadDid(kernel.trace[|old(kernel.trace)|..], old(childPid), old(stdoutFd), capacity,
                        status, bytes)
      ensures capacity == 0 || !old(active) ==> unchanged(kernel)
      ensures capacity == 0 ==> status == InvalidArgument && unchanged(this)
      ensures status in {Ok, InvalidArgument, ChildProcess, IoError} && (status == InvalidArgument ==> capacity == 0)
      ensures |bytes| <= capacity && kernel.received == old(kernel.received) + bytes
      ensures status != Ok ==> bytes == []
      ensures status == Ok ==> active && unchanged(this)
      ensures !old(active) && capacity > 0 ==> status == ChildProcess && unchanged(this)
    {
      if capacity == 0 {
        return InvalidArgument, [];
      }
      if !active || stdoutFd < 0 || childPid <= 0 {
        return ChildProcess, [];
      }
      hide ReadDid, ReapDid;
      ghost var before, pid, fd := kernel.trace, childPid, stdoutFd;
      var answer := kernel.Read(stdoutFd, capacity);
      ReadEndsAtOnce(before, pid, fd, capacity, answer);
      match answer
      case Data(data) =>
        return Ok, data;
      case EndOfFile =>
        var reaped := ReapChild();
        ReadThenReaps(before, kernel.trace, pid, fd, capacity, answer, reaped);
        return ChildProcess, [];
      case TryAgain =>
        status := ReapChild();
        ReadThenReaps(before, kernel.trace, pid, fd, capacity, answer, status);
        return status, [];
      case ReadFailed =>
        return IoError, [];
    }

    /** Stop from the SIGTERM on, the pipe being closed. */
    method StopChild(pid: int, fd: int, ghost before: seq<SysCall>) returns (status: Status)
      requires kernel.Valid() && 0 < pid && pid !in kernel.orphans && kernel.children == kernel.orphans + {pid}
      requires kernel.trace == before + [CloseCall(fd)]
      modifies kernel`children, kernel`orphans, kernel`interruptions, kernel`polls, kernel`trace
      ensures kernel.Valid() && kernel.children == kernel.orphans && status in {Ok, ChildProcess}
      ensures before <= kernel.trace && StopDid(kernel.trace[|before|..], pid, fd, status)
      ensures old(kernel.interruptions) <= kernel.interruptions <= old(kernel.interruptions) + 1
      ensures kernel.polls <= old(kernel.polls) + TERM_WAIT_MS / TERM_POLL_MS
    {
      hide StopDid, PollsDid;
      status := Ok;
      var term := kernel.SendSignal(pid, Terminate);
      if term.Denied? {
        status := ChildProcess;
      }
      var exited, polls := WaitForExit(pid, TERM_WAIT_MS);
      var kill := term;
      ghost var interrupted := false;
      if !exited {
        kill := kernel.SendSignal(pid, Signal.Kill);
        if kill.Denied? {
          status := ChildProcess;
        }
        interrupted := kernel.Wait(pid);
      }
      StopAssembled(before, pid, fd, term, polls, exited, kill, interrupted, kernel.trace);
    }

    /** SIGTERM, a bounded number of polls, then SIGKILL and a blocking wait. */
    method Stop() returns (status: Status)
      requires Valid()
      modifies this, kernel`children, kernel`descriptors, kernel`orphans, kernel`interruptions,
               kernel`polls, kernel`trace
      ensures Valid() && !active && status in {Ok, ChildProcess}
      ensures old(kernel.trace) <= kernel.trace
      ensures old(active) ==> StopDid(kernel.trace[|old(kernel.trace)|..], old(childPid), old(stdoutFd), status)
      ensures !old(active) ==> status == Ok && unchanged(this) && unchanged(kernel)
      ensures kernel.descriptors == {}
      ensures kernel.children == {} <==> kernel.interruptions == 0
      ensures old(kernel.interruptions) <= kernel.interruptions <= old(kernel.interruptions) + 1
      ensures kernel.polls <= old(kernel.polls) + TERM_WAIT_MS / TERM_POLL_MS
    {
      if !active {
        return Ok;
      }
      var pid, fd := childPid, stdoutFd;
      CloseFd();
      status := Ok;
      if pid > 0 {
        status := StopChild(pid, fd, old(kernel.trace));
      }
      active, childPid := false, -1;
    }
  }
}
