/** The operating-system boundary the pseudo-terminal core talks to.

    Every primitive the core uses (descriptor calls, the PTY allocation calls,
    the readiness waits and the signal calls) is answered from a script that the
    caller supplies.  A `Host` records, as ghost state, every call it answered
    (with its answer) and the set of descriptors the calls have left open.  A
    script that has run out answers every further call with a failure. */
module Facade {

  datatype Option<T> = None | Some(value: T)

  function Last<T>(s: seq<T>): T
    requires |s| > 0
  {
    s[|s| - 1]
  }

  /** Open flag for a read-only open. */
  const O_RDONLY := 0
  /** The readable bit of a poll entry's `events`/`revents` mask. */
  const POLLIN: bv16 := 0x0001
  /** errno values (Linux numbering). */
  const EINTR := 4
  const EBADF := 9
  const EAGAIN := 11

  /** Calls whose answer is a single integer status or descriptor. */
  datatype Syscall =
    | Getpt
    | Grantpt(fd: int)
    | Unlockpt(fd: int)
    | Open(path: string, flags: int)
    | Close(fd: int)
    | Read(fd: int, len: int)
    | Write(fd: int, len: int)
    | Killpg(pid: int, sig: int)
    | Kill(pid: int, sig: int)

  /** Answer of pipe(): its status and, on success, the two new descriptors. */
  datatype PipeAnswer = PipeAnswer(status: int, readEnd: int, writeEnd: int)

  /** Answer of a two-entry poll(): its count, the errno read after it, and the
      `revents` of the wake-pipe entry and of the master entry. */
  datatype PollAnswer = PollAnswer(count: int, errno: int, pipeRevents: bv16, masterRevents: bv16)

  /** Answer of select() followed by FD_ISSET on the master descriptor. */
  datatype SelectAnswer = SelectAnswer(count: int, masterSet: bool)

  /** One call as it appears in the trace, with the answer it got. */
  datatype Event =
    | Returned(call: Syscall, ret: int)
    | Named(ptsFd: int, name: Option<string>)
    | Piped(pipe: PipeAnswer)
    | Polled(pipeFd: int, fd: int, poll: PollAnswer)
    | Selected(nfds: int, selPipeFd: int, selFd: int, select: SelectAnswer)

  /** The answers still to be given, one queue per kind of answer. */
  datatype Script = Script(
    ints: seq<int>,
    names: seq<Option<string>>,
    pipes: seq<PipeAnswer>,
    polls: seq<PollAnswer>,
    selects: seq<SelectAnswer>)
  {
    function NextInt(): (int, Script)
    {
      if ints == [] then (-1, this) else (ints[0], this.(ints := ints[1..]))
    }

    function NextName(): (Option<string>, Script)
    {
      if names == [] then (None, this) else (names[0], this.(names := names[1..]))
    }

    function NextPipe(): (PipeAnswer, Script)
    {
      if pipes == [] then (PipeAnswer(-1, 0, 0), this) else (pipes[0], this.(pipes := pipes[1..]))
    }

    function NextPoll(): (PollAnswer, Script)
    {
      if polls == [] then (PollAnswer(-1, EBADF, 0, 0), this) else (polls[0], this.(polls := polls[1..]))
    }

    function NextSelect(): (SelectAnswer, Script)
    {
      if selects == [] then (SelectAnswer(-1, false), this) else (selects[0], this.(selects := selects[1..]))
    }
  }

  /** What a protocol does: its result, the calls it issued in order, and the
      answers left over. */
  datatype Effect<T> = Effect(value: T, calls: seq<Event>, rest: Script)

  /** The descriptors open after one call. */
  function Track(open: set<int>, e: Event): set<int>
  {
    if e.Returned? && e.call.Close? then open - {e.call.fd}
    else if e.Returned? && (e.call.Getpt? || e.call.Open?) && e.ret >= 0 then open + {e.ret}
    else if e.Piped? && e.pipe.status >= 0 then open + {e.pipe.readEnd, e.pipe.writeEnd}
    else open
  }

  /** The descriptors open after a sequence of calls. */
  function TrackAll(open: set<int>, es: seq<Event>): set<int>
    decreases |es|
  {
    if es == [] then open else TrackAll(Track(open, es[0]), es[1..])
  }

  lemma {:induction false} TrackAllAppend(open: set<int>, a: seq<Event>, b: seq<Event>)
    ensures TrackAll(open, a + b) == TrackAll(TrackAll(open, a), b)
    decreases |a|
  {
    if a != [] {
      assert (a + b)[1..] == a[1..] + b;
      TrackAllAppend(Track(open, a[0]), a[1..], b);
    } else {
      assert a + b == b;
    }
  }

  lemma TrackAllSnoc(open: set<int>, es: seq<Event>, e: Event)
    ensures TrackAll(open, es + [e]) == Track(TrackAll(open, es), e)
  {
    TrackAllAppend(open, es, [e]);
  }

  /** Appending one call to a trace extended by `es`. */
  lemma TraceSnoc(trace: seq<Event>, es: seq<Event>, e: Event)
    ensures trace + es + [e] == trace + (es + [e])
  {
  }

  /** Moving one call from the front of the calls still to come to the end of
      the calls made. */
  lemma ShiftOne(done: seq<Event>, e: Event, rest: seq<Event>)
    ensures done + ([e] + rest) == (done + [e]) + rest
  {
  }

  /** Whether the events are exactly the integer-answered calls `cs`, in order. */
  predicate Issued(es: seq<Event>, cs: seq<Syscall>)
  {
    |es| == |cs| && forall i :: 0 <= i < |es| ==> es[i].Returned? && es[i].call == cs[i]
  }

  /** Number of close calls on `fd` in a sequence of calls. */
  function CloseCount(es: seq<Event>, fd: int): nat
    decreases |es|
  {
    if es == [] then 0
    else (if es[0].Returned? && es[0].call == Close(fd) then 1 else 0) + CloseCount(es[1..], fd)
  }

  lemma {:induction false} CloseCountAppend(a: seq<Event>, b: seq<Event>, fd: int)
    ensures CloseCount(a + b, fd) == CloseCount(a, fd) + CloseCount(b, fd)
    decreases |a|
  {
    if a != [] {
      assert (a + b)[1..] == a[1..] + b;
      CloseCountAppend(a[1..], b, fd);
    } else {
      assert a + b == b;
    }
  }

  lemma CloseCountSnoc(es: seq<Event>, e: Event, fd: int)
    ensures CloseCount(es + [e], fd) == CloseCount(es, fd) + (if e.Returned? && e.call == Close(fd) then 1 else 0)
  {
    CloseCountAppend(es, [e], fd);
    assert [e][1..] == [];
  }

  /** The simulated host. */
  class Host {
    var script: Script
    ghost var trace: seq<Event>
    ghost var open: set<int>

    constructor (script: Script, ghost open: set<int>)
      ensures this.script == script && trace == [] && this.open == open
    {
      this.script := script;
      trace := [];
      this.open := open;
    }

    method Sys(c: Syscall) returns (r: int)
      modifies this
      ensures (r, script) == old(script).NextInt()
      ensures trace == old(trace) + [Returned(c, r)]
      ensures open == Track(old(open), Returned(c, r))
    {
      r, script := script.NextInt().0, script.NextInt().1;
      trace := trace + [Returned(c, r)];
      open := Track(open, Returned(c, r));
    }

    method Ptsname(fd: int) returns (name: Option<string>)
      modifies this
      ensures (name, script) == old(script).NextName()
      ensures trace == old(trace) + [Named(fd, name)]
      ensures open == old(open)
    {
      name, script := script.NextName().0, script.NextName().1;
      trace := trace + [Named(fd, name)];
    }

    method Pipe() returns (a: PipeAnswer)
      modifies this
      ensures (a, script) == old(script).NextPipe()
      ensures trace == old(trace) + [Piped(a)]
      ensures open == Track(old(open), Piped(a))
    {
      a, script := script.NextPipe().0, script.NextPipe().1;
      trace := trace + [Piped(a)];
      open := Track(open, Piped(a));
    }

    method Poll(pipeFd: int, fd: int) returns (a: PollAnswer)
      modifies this
      ensures (a, script) == old(script).NextPoll()
      ensures trace == old(trace) + [Polled(pipeFd, fd, a)]
      ensures open == old(open)
    {
      a, script := script.NextPoll().0, script.NextPoll().1;
      trace := trace + [Polled(pipeFd, fd, a)];
    }

    method Select(nfds: int, pipeFd: int, fd: int) returns (a: SelectAnswer)
      modifies this
      ensures (a, script) == old(script).NextSelect()
      ensures trace == old(trace) + [Selected(nfds, pipeFd, fd, a)]
      ensures open == old(open)
    {
      a, script := script.NextSelect().0, script.NextSelect().1;
      trace := trace + [Selected(nfds, pipeFd, fd, a)];
    }
  }
}
