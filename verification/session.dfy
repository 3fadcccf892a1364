/** A pseudo-terminal session: the master descriptor, the optional slave
    descriptor kept open to preserve output, and the wake pipe that interrupts
    a blocked wait.  The operations are taken one at a time (the two locks of
    the source are not modelled). */
module Session {
  import opened Facade
  import opened Allocator
  import opened Multiplexer

  /** The session's descriptor fields; -1 means "not open". */
  datatype Fds = Fds(master: int, slave: int, pipeRead: int, pipeWrite: int)

  /** How `close` ends: normally, or with an IOException("Close error"). */
  datatype Status = Done | IoError

  datatype Closing = Closing(status: Status, fds: Fds)

  /** What the constructor leaves: the descriptors and the slave name. */
  datatype Opened = Opened(fds: Fds, name: string)

  /** The constructor's field setup: allocate, optionally open the slave name
      read-only, then create the wake pipe (whose status is not checked: on
      failure the two entries keep their initial 0). */
  function OpenSession(preserveOutput: bool, s: Script): Effect<Opened>
  {
    var a := MasterOpen(s);
    var name := a.value.name.value;
    var (slave, openCalls, s1) :=
      if preserveOutput then
        var (r, s') := a.rest.NextInt();
        (r, [Returned(Open(name, O_RDONLY), r)], s')
      else (-1, [], a.rest);
    var (p, s2) := s1.NextPipe();
    var pipeRead := if p.status >= 0 then p.readEnd else 0;
    var pipeWrite := if p.status >= 0 then p.writeEnd else 0;
    Effect(Opened(Fds(a.value.master, slave, pipeRead, pipeWrite), name), a.calls + openCalls + [Piped(p)], s2)
  }

  /** What the constructor's field setup leaves and issues. */
  lemma OpenSessionFields(preserveOutput: bool, s: Script)
    ensures var e := OpenSession(preserveOutput, s); var a := MasterOpen(s);
      // an allocation failure does not throw: its negative code becomes the master
      e.value.fds.master == a.value.master &&
      // the session starts closed exactly when acquiring the master handle failed
      (e.value.fds.master == -1 <==> a.calls[0].ret < 0) &&
      (a.value.master < 0 ==> e.value.name == PTMX) &&
      (a.value.master >= 0 ==> Some(e.value.name) == a.calls[3].name) &&
      // the allocation's calls come first, the pipe is created last
      |e.calls| == |a.calls| + (if preserveOutput then 2 else 1) &&
      e.calls[..|a.calls|] == a.calls && Last(e.calls).Piped? &&
      // the slave is opened read-only by name only when output is to be preserved
      (!preserveOutput ==> e.value.fds.slave == -1) &&
      (preserveOutput ==> e.calls[|a.calls|] == Returned(Open(e.value.name, O_RDONLY), e.value.fds.slave)) &&
      // a failed pipe leaves both pipe entries at 0
      (var p := Last(e.calls).pipe;
       if p.status >= 0 then e.value.fds.pipeRead == p.readEnd && e.value.fds.pipeWrite == p.writeEnd
       else e.value.fds.pipeRead == 0 && e.value.fds.pipeWrite == 0)
  {
  }

  /** close0: close the saved master, write the wake byte, then close both
      pipe ends; the result is the master close's status. */
  function Close0Effect(fd: int, pipeRead: int, pipeWrite: int, s: Script): (e: Effect<int>)
    ensures Issued(e.calls, [Close(fd), Write(pipeWrite, 1), Close(pipeRead), Close(pipeWrite)])
    ensures e.value == e.calls[0].ret
  {
    var (ret, s1) := s.NextInt();
    var (w, s2) := s1.NextInt();
    var (c0, s3) := s2.NextInt();
    var (c1, s4) := s3.NextInt();
    Effect(ret, [Returned(Close(fd), ret), Returned(Write(pipeWrite, 1), w),
                 Returned(Close(pipeRead), c0), Returned(Close(pipeWrite), c1)], s4)
  }

  /** close: the master part (field to -1 first, then close0), then, unless that
      threw, the slave part (field to -1 first, then its close). */
  function CloseSession(f: Fds, s: Script): (e: Effect<Closing>)
    // fail-forward: the master field is the sentinel afterwards, whatever happened
    ensures e.value.fds.master == -1
    // nothing open: nothing is issued and nothing changes
    ensures f.master == -1 && f.slave == -1 ==> e == Effect(Closing(Done, f), [], s)
    // an open master: close it, write the wake byte, close both pipe ends, in
    // that order, and reset the pipe fields
    ensures f.master != -1 ==>
      4 <= |e.calls| &&
      Issued(e.calls[..4], [Close(f.master), Write(f.pipeWrite, 1), Close(f.pipeRead), Close(f.pipeWrite)]) &&
      e.value.fds.pipeRead == -1 && e.value.fds.pipeWrite == -1
    ensures f.master == -1 ==> e.value.fds.pipeRead == f.pipeRead && e.value.fds.pipeWrite == f.pipeWrite
    // a master close answering -1 throws and leaves the slave untouched
    ensures f.master != -1 && e.calls[0].ret == -1 ==>
      e.value.status == IoError && |e.calls| == 4 && e.value.fds.slave == f.slave
    // otherwise the slave is closed exactly when it is open, and the call
    // throws exactly when that close answers -1
    ensures !(f.master != -1 && e.calls[0].ret == -1) ==>
      e.value.fds.slave == -1 &&
      |e.calls| == (if f.master != -1 then 4 else 0) + (if f.slave != -1 then 1 else 0) &&
      (f.slave != -1 ==> Last(e.calls).Returned? && Last(e.calls).call == Close(f.slave)) &&
      (e.value.status == IoError <==> f.slave != -1 && Last(e.calls).ret == -1)
  {
    var m :=
      if f.master != -1 then
        var c := Close0Effect(f.master, f.pipeRead, f.pipeWrite, s);
        Effect(Closing(if c.value == -1 then IoError else Done, Fds(-1, f.slave, -1, -1)), c.calls, c.rest)
      else Effect(Closing(Done, f), [], s);
    if m.value.status == IoError || f.slave == -1 then m
    else
      var (r, s1) := m.rest.NextInt();
      Effect(Closing(if r == -1 then IoError else Done, m.value.fds.(slave := -1)),
             m.calls + [Returned(Close(f.slave), r)], s1)
  }

  /** read: short-circuit to -1 with no call when the master or the pipe's read
      end is the sentinel; otherwise wait, and read the saved master only when
      the wait reports master data. */
  function ReadSession(f: Fds, useSelect: bool, len: int, s: Script): (e: Effect<int>)
    ensures f.master == -1 || f.pipeRead == -1 ==> e == Effect(-1, [], s)
    // a read call is issued exactly when the wait reported data on the master
    ensures ReadIssued(e.calls) <==>
      f.master != -1 && f.pipeRead != -1 && Wait(useSelect, f.pipeRead, f.master, s).value
    ensures ReadIssued(e.calls) ==> Last(e.calls) == Returned(Read(f.master, len), e.value)
    // with both descriptors open, the wait's calls come first, and at most the
    // one read follows them
    ensures f.master != -1 && f.pipeRead != -1 ==>
      var w := Wait(useSelect, f.pipeRead, f.master, s);
      |e.calls| == |w.calls| + (if w.value then 1 else 0) && e.calls[..|w.calls|] == w.calls
    ensures !ReadIssued(e.calls) ==> e.value == -1
  {
    var fd := f.master;
    if fd == -1 then Effect(-1, [], s)
    else if f.pipeRead == -1 then Effect(-1, [], s)
    else
      var w := Wait(useSelect, f.pipeRead, fd, s);
      if w.value then
        var (r, s1) := w.rest.NextInt();
        var calls := w.calls + [Returned(Read(fd, len), r)];
        assert calls[|calls| - 1].call.Read?;
        Effect(r, calls, s1)
      else
        Effect(-1, w.calls, w.rest)
  }

  /** Whether a read call was issued. */
  predicate ReadIssued(es: seq<Event>)
  {
    exists i :: 0 <= i < |es| && es[i].Returned? && es[i].call.Read?
  }

  /** write: one write call on the master field as it is, sentinel included. */
  function WriteSession(f: Fds, len: int, s: Script): (e: Effect<int>)
    ensures Issued(e.calls, [Write(f.master, len)]) && e.value == e.calls[0].ret
  {
    var (r, s1) := s.NextInt();
    Effect(r, [Returned(Write(f.master, len), r)], s1)
  }

  /** A close that returned normally makes every later close a no-op. */
  lemma CloseIdempotent(f: Fds, s: Script)
    ensures var e := CloseSession(f, s);
      e.value.status == Done ==>
        CloseSession(e.value.fds, e.rest) == Effect(Closing(Done, e.value.fds), [], e.rest)
  {
  }

  /** After a close that threw on the master, a second close issues only the
      slave's close (when the slave is open). */
  lemma CloseAfterMasterError(f: Fds, s: Script)
    requires f.master != -1 && CloseSession(f, s).calls[0].ret == -1
    ensures var e := CloseSession(f, s); var e2 := CloseSession(e.value.fds, e.rest);
      e2.value.fds == e.value.fds.(slave := -1) &&
      |e2.calls| == (if f.slave != -1 then 1 else 0) &&
      (f.slave != -1 ==> e2.calls[0].Returned? && e2.calls[0].call == Close(f.slave))
  {
  }

  /** After close (whether or not it threw), a read returns -1 with no call. */
  lemma ReadAfterClose(f: Fds, s: Script, useSelect: bool, len: int, s2: Script)
    ensures ReadSession(CloseSession(f, s).value.fds, useSelect, len, s2) == Effect(-1, [], s2)
  {
  }

  /** After close, write still issues a write call, on descriptor -1. */
  lemma WriteAfterClose(f: Fds, s: Script, len: int, s2: Script)
    ensures var e := WriteSession(CloseSession(f, s).value.fds, len, s2);
      e.calls[0].Returned? && e.calls[0].call == Write(-1, len)
  {
  }

  /** `n` successive closes, whatever each of them returned or threw. */
  function CloseRepeatedly(f: Fds, s: Script, n: nat): Effect<Fds>
    decreases n
  {
    if n == 0 then Effect(f, [], s)
    else
      var c := CloseSession(f, s);
      var r := CloseRepeatedly(c.value.fds, c.rest, n - 1);
      Effect(r.value, c.calls + r.calls, r.rest)
  }

  /** The master and both pipe ends open, and all four fields distinct (the
      slave may be absent). */
  predicate Distinct(f: Fds)
  {
    f.master != -1 && f.pipeRead != -1 && f.pipeWrite != -1 &&
    f.master != f.pipeRead && f.master != f.pipeWrite && f.pipeRead != f.pipeWrite &&
    f.slave != f.master && f.slave != f.pipeRead && f.slave != f.pipeWrite
  }

  /** With the master at -1, close never reaches close0: any number of closes
      leave the pipe fields as they are and issue at most the slave's close, so
      neither pipe end is ever closed. */
  lemma {:induction false} MasterlessCloseKeepsPipe(f: Fds, s: Script, n: nat)
    requires f.master == -1
    decreases n
    ensures var r := CloseRepeatedly(f, s, n);
      r.value.master == -1 && r.value.pipeRead == f.pipeRead && r.value.pipeWrite == f.pipeWrite &&
      |r.calls| <= 1 && (f.slave == -1 ==> r.calls == []) &&
      (|r.calls| == 1 ==> r.calls[0].Returned? && r.calls[0].call == Close(f.slave)) &&
      (f.pipeRead != f.slave ==> CloseCount(r.calls, f.pipeRead) == 0) &&
      (f.pipeWrite != f.slave ==> CloseCount(r.calls, f.pipeWrite) == 0)
  {
    if n >= 1 {
      var c := CloseSession(f, s);
      var g := c.value.fds;
      var r := CloseRepeatedly(g, c.rest, n - 1);
      MasterlessCloseKeepsPipe(g, c.rest, n - 1);
      assert g.slave == -1 && r.calls == [];
      assert CloseRepeatedly(f, s, n).calls == c.calls + r.calls;
      assert c.calls + r.calls == c.calls;
      if |c.calls| == 1 {
        assert c.calls[0] == Last(c.calls);
      }
      OneCloseCount(c.calls, f.slave, f.pipeRead);
      OneCloseCount(c.calls, f.slave, f.pipeWrite);
    }
  }

  /** When acquiring the master handle fails, the constructor still creates the
      pipe, and no number of closes ever closes it. */
  lemma GetptFailureLeaksPipe(preserveOutput: bool, s: Script, s2: Script, n: nat)
    requires MasterOpen(s).calls[0].ret < 0
    ensures var o := OpenSession(preserveOutput, s).value.fds;
      var r := CloseRepeatedly(o, s2, n);
      var p := Last(OpenSession(preserveOutput, s).calls).pipe;
      o.master == -1 &&
      (p.status >= 0 ==> o.pipeRead == p.readEnd && o.pipeWrite == p.writeEnd) &&
      r.value.pipeRead == o.pipeRead && r.value.pipeWrite == o.pipeWrite &&
      (o.pipeRead != o.slave ==> CloseCount(r.calls, o.pipeRead) == 0) &&
      (o.pipeWrite != o.slave ==> CloseCount(r.calls, o.pipeWrite) == 0)
  {
    OpenSessionFields(preserveOutput, s);
    MasterlessCloseKeepsPipe(OpenSession(preserveOutput, s).value.fds, s2, n);
  }

  /** Once master and pipe are closed, any number of closes close the slave
      at most once (exactly once when it is open and a close happens). */
  lemma {:induction false} ClosedMasterRepeatedly(g: Fds, s: Script, n: nat)
    requires g.master == -1 && g.pipeRead == -1 && g.pipeWrite == -1
    decreases n
    ensures var r := CloseRepeatedly(g, s, n);
      |r.calls| == (if n >= 1 && g.slave != -1 then 1 else 0) &&
      (|r.calls| == 1 ==> r.calls[0].Returned? && r.calls[0].call == Close(g.slave)) &&
      r.value.master == -1 && r.value.pipeRead == -1 && r.value.pipeWrite == -1
  {
    if n >= 1 {
      var c := CloseSession(g, s);
      var r := CloseRepeatedly(c.value.fds, c.rest, n - 1);
      ClosedMasterRepeatedly(c.value.fds, c.rest, n - 1);
      if g.slave != -1 {
        assert c.value.fds.slave == -1;
        assert r.calls == [];
      } else {
        assert c.calls == [];
      }
    }
  }

  /** Repeated closes of an open session close each descriptor at most once:
      master and both pipe ends exactly once, the slave exactly once by the
      second close at the latest. */
  lemma {:induction false} RepeatedCloseClosesOnce(f: Fds, s: Script, n: nat)
    requires n >= 1 && Distinct(f)
    ensures var calls := CloseRepeatedly(f, s, n).calls;
      CloseCount(calls, f.master) == 1 &&
      CloseCount(calls, f.pipeRead) == 1 && CloseCount(calls, f.pipeWrite) == 1 &&
      (f.slave != -1 ==> CloseCount(calls, f.slave) <= 1) &&
      (f.slave != -1 && n >= 2 ==> CloseCount(calls, f.slave) == 1)
  {
    var c := CloseSession(f, s);
    var g := c.value.fds;
    var r := CloseRepeatedly(g, c.rest, n - 1);
    FirstCloseCounts(f, s);
    ClosedMasterRepeatedly(g, c.rest, n - 1);
    assert CloseRepeatedly(f, s, n).calls == c.calls + r.calls;
    CloseCountAppend(c.calls, r.calls, f.master);
    CloseCountAppend(c.calls, r.calls, f.pipeRead);
    CloseCountAppend(c.calls, r.calls, f.pipeWrite);
    CloseCountAppend(c.calls, r.calls, f.slave);
    OneCloseCount(r.calls, g.slave, f.master);
    OneCloseCount(r.calls, g.slave, f.pipeRead);
    OneCloseCount(r.calls, g.slave, f.pipeWrite);
    OneCloseCount(r.calls, g.slave, f.slave);
  }

  /** Close counts of a sequence that is empty or a single close of `closed`. */
  lemma OneCloseCount(es: seq<Event>, closed: int, fd: int)
    requires |es| <= 1
    requires |es| == 1 ==> es[0].Returned? && es[0].call == Close(closed)
    ensures CloseCount(es, fd) == (if |es| == 1 && closed == fd then 1 else 0)
  {
    if |es| == 1 {
      assert es[1..] == [];
    }
  }

  /** What the first close of an open session closes. */
  lemma FirstCloseCounts(f: Fds, s: Script)
    requires Distinct(f)
    ensures var c := CloseSession(f, s); var g := c.value.fds;
      g.master == -1 && g.pipeRead == -1 && g.pipeWrite == -1 &&
      CloseCount(c.calls, f.master) == 1 &&
      CloseCount(c.calls, f.pipeRead) == 1 && CloseCount(c.calls, f.pipeWrite) == 1 &&
      (g.slave == f.slave || g.slave == -1) &&
      CloseCount(c.calls, f.slave) == (if f.slave != -1 && g.slave == -1 then 1 else 0)
  {
    var c := CloseSession(f, s);
    var first := c.calls[..4];
    var slavePart := c.calls[4..];
    assert c.calls == first + slavePart;
    CountOfFour(first, f.master, f.pipeRead, f.pipeWrite, f.slave, f.pipeWrite);
    CloseCountAppend(first, slavePart, f.master);
    CloseCountAppend(first, slavePart, f.pipeRead);
    CloseCountAppend(first, slavePart, f.pipeWrite);
    CloseCountAppend(first, slavePart, f.slave);
    if |slavePart| == 1 {
      assert slavePart[0] == Last(c.calls);
    }
    OneCloseCount(slavePart, f.slave, f.master);
    OneCloseCount(slavePart, f.slave, f.pipeRead);
    OneCloseCount(slavePart, f.slave, f.pipeWrite);
    OneCloseCount(slavePart, f.slave, f.slave);
  }

  /** Close counts over close0's four calls. */
  lemma CountOfFour(first: seq<Event>, m: int, pr: int, pw: int, other: int, w: int)
    requires Issued(first, [Close(m), Write(w, 1), Close(pr), Close(pw)])
    requires m != pr && m != pw && pr != pw && other != m && other != pr && other != pw
    ensures CloseCount(first, m) == 1 && CloseCount(first, pr) == 1 && CloseCount(first, pw) == 1
    ensures CloseCount(first, other) == 0
  {
    assert first[0].call == Close(m) && first[1].call == Write(w, 1);
    assert first[2].call == Close(pr) && first[3].call == Close(pw);
    CountOfFourAt(first, m);
    CountOfFourAt(first, pr);
    CountOfFourAt(first, pw);
    CountOfFourAt(first, other);
  }

  lemma CountOfFourAt(es: seq<Event>, fd: int)
    requires |es| == 4
    ensures CloseCount(es, fd) ==
      (if es[0].Returned? && es[0].call == Close(fd) then 1 else 0) +
      (if es[1].Returned? && es[1].call == Close(fd) then 1 else 0) +
      (if es[2].Returned? && es[2].call == Close(fd) then 1 else 0) +
      (if es[3].Returned? && es[3].call == Close(fd) then 1 else 0)
  {
    var t1 := es[1..];
    var t2 := t1[1..];
    var t3 := t2[1..];
    assert CloseCount(t3[1..], fd) == 0;
    assert CloseCount(t3, fd) == (if es[3].Returned? && es[3].call == Close(fd) then 1 else 0);
    assert CloseCount(t2, fd) == (if es[2].Returned? && es[2].call == Close(fd) then 1 else 0) + CloseCount(t3, fd);
    assert CloseCount(t1, fd) == (if es[1].Returned? && es[1].call == Close(fd) then 1 else 0) + CloseCount(t2, fd);
  }

  /** A failed pipe leaves both pipe fields 0, so the first close of a session
      whose master is not -1 (an allocated master, or a code -2..-4) closes
      descriptor 0 twice. */
  lemma PipeFailureClosesZeroTwice(preserveOutput: bool, s: Script, s2: Script)
    requires OpenSession(preserveOutput, s).value.fds.master != -1
    requires Last(OpenSession(preserveOutput, s).calls).pipe.status < 0
    ensures var c := CloseSession(OpenSession(preserveOutput, s).value.fds, s2);
      c.calls[2].call == Close(0) && c.calls[3].call == Close(0)
  {
    OpenSessionFields(preserveOutput, s);
  }

  /** When getpt fails and output is preserved, the constructor opens the
      multiplexer name "/dev/ptmx" read-only and keeps that descriptor as its
      slave. */
  lemma GetptFailureOpensPtmx(s: Script)
    requires MasterOpen(s).calls[0].ret < 0
    ensures var e := OpenSession(true, s); var a := MasterOpen(s);
      e.value.name == PTMX && |e.calls| > |a.calls| &&
      e.calls[|a.calls|] == Returned(Open(PTMX, O_RDONLY), e.value.fds.slave)
  {
    MasterOpenOutcomes(s);
    OpenSessionFields(true, s);
  }

  /** The session object. */
  class Pty {
    const os: Host
    const myConsole: bool
    const myPipe: array<int>
    var mySlaveName: string
    var myMaster: int
    var mySlaveFD: int

    ghost predicate Valid()
      reads this
    {
      myPipe.Length == 2
    }

    /** The descriptor fields as a value. */
    ghost function Descriptors(): Fds
      reads this, myPipe
      requires Valid()
    {
      Fds(myMaster, mySlaveFD, myPipe[0], myPipe[1])
    }

    predicate IsClosed()
      reads this
    {
      myMaster == -1
    }

    constructor (os: Host, console: bool, preserveOutput: bool)
      modifies os
      ensures Valid() && fresh(myPipe) && this.os == os && myConsole == console
      ensures var e := OpenSession(preserveOutput, old(os.script));
        Descriptors() == e.value.fds && mySlaveName == e.value.name &&
        os.trace == old(os.trace) + e.calls && os.script == e.rest &&
        os.open == TrackAll(old(os.open), e.calls)
    {
      ghost var open0, s0, t0 := os.open, os.script, os.trace;
      ghost var e := OpenSession(preserveOutput, s0);
      myConsole := console;
      this.os := os;
      MasterOpenNoLeak(s0, open0);
      var master, name := PtyMasterOpen(os);
      ghost var calls := MasterOpen(s0).calls;
      assert os.open == TrackAll(open0, calls);
      myMaster := master;
      // no allocation path returns a null name, so the source's null check never fires
      var slaveName := name.value;
      mySlaveName := slaveName;
      var slave := -1;
      if preserveOutput {
        slave := os.Sys(Syscall.Open(slaveName, O_RDONLY));
        ghost var opening := Returned(Syscall.Open(slaveName, O_RDONLY), slave);
        TrackAllSnoc(open0, calls, opening);
        TraceSnoc(t0, calls, opening);
        calls := calls + [opening];
      }
      mySlaveFD := slave;
      var pipe := new int[2](_ => 0);
      var answer := os.Pipe();
      TrackAllSnoc(open0, calls, Piped(answer));
      TraceSnoc(t0, calls, Piped(answer));
      calls := calls + [Piped(answer)];
      assert calls == e.calls && os.script == e.rest;
      if answer.status >= 0 {
        pipe[0], pipe[1] := answer.readEnd, answer.writeEnd;
      }
      myPipe := pipe;
      assert pipe[0] == e.value.fds.pipeRead && pipe[1] == e.value.fds.pipeWrite;
    }

    /** Writes the wake byte to the pipe's write end. */
    method BreakRead()
      requires Valid()
      modifies os
      ensures var (w, s1) := old(os.script).NextInt();
        os.trace == old(os.trace) + [Returned(Syscall.Write(myPipe[1], 1), w)] && os.script == s1
      ensures os.open == old(os.open)
    {
      var _ := os.Sys(Syscall.Write(myPipe[1], 1));
    }

    /** Runs only once the master field is already the sentinel. */
    method Close0(fd: int) returns (ret: int)
      requires Valid() && myMaster == -1
      modifies myPipe, os
      ensures var e := Close0Effect(fd, old(myPipe[0]), old(myPipe[1]), old(os.script));
        ret == e.value && os.trace == old(os.trace) + e.calls && os.script == e.rest &&
        os.open == TrackAll(old(os.open), e.calls)
      ensures myPipe[0] == -1 && myPipe[1] == -1
    {
      ghost var open0 := os.open;
      ret := os.Sys(Syscall.Close(fd));
      ghost var calls := [Returned(Syscall.Close(fd), ret)];
      assert os.open == TrackAll(open0, calls);
      ghost var before := os.script;
      BreakRead();
      TrackAllSnoc(open0, calls, Returned(Syscall.Write(myPipe[1], 1), before.NextInt().0));
      calls := calls + [Returned(Syscall.Write(myPipe[1], 1), before.NextInt().0)];
      var c0 := os.Sys(Syscall.Close(myPipe[0]));
      TrackAllSnoc(open0, calls, Returned(Syscall.Close(myPipe[0]), c0));
      calls := calls + [Returned(Syscall.Close(myPipe[0]), c0)];
      var c1 := os.Sys(Syscall.Close(myPipe[1]));
      TrackAllSnoc(open0, calls, Returned(Syscall.Close(myPipe[1]), c1));
      calls := calls + [Returned(Syscall.Close(myPipe[1]), c1)];
      assert calls == Close0Effect(fd, old(myPipe[0]), old(myPipe[1]), old(os.script)).calls;
      myPipe[0] := -1;
      myPipe[1] := -1;
    }

    method Close() returns (status: Status)
      requires Valid()
      modifies this`myMaster, this`mySlaveFD, myPipe, os
      ensures Valid() && IsClosed()
      ensures var e := CloseSession(old(Descriptors()), old(os.script));
        status == e.value.status && Descriptors() == e.value.fds &&
        os.trace == old(os.trace) + e.calls && os.script == e.rest &&
        os.open == TrackAll(old(os.open), e.calls)
    {
      ghost var f := Descriptors();
      ghost var open0, t0 := os.open, os.trace;
      ghost var calls: seq<Event> := [];
      if myMaster != -1 {
        var fd := myMaster;
        myMaster := -1;
        ghost var before := os.script;
        var ret := Close0(fd);
        calls := Close0Effect(fd, f.pipeRead, f.pipeWrite, before).calls;
        if ret == -1 {
          return IoError;
        }
      }
      if mySlaveFD != -1 {
        var fd := mySlaveFD;
        mySlaveFD := -1;
        var ret := os.Sys(Syscall.Close(fd));
        TrackAllSnoc(open0, calls, Returned(Syscall.Close(fd), ret));
        TraceSnoc(t0, calls, Returned(Syscall.Close(fd), ret));
        if ret == -1 {
          return IoError;
        }
      }
      return Done;
    }

    /** `useSelect` is the process-wide backend flag. */
    method Read(useSelect: bool, len: int) returns (n: int)
      requires Valid()
      modifies os
      ensures var e := ReadSession(old(Descriptors()), useSelect, len, old(os.script));
        n == e.value && os.trace == old(os.trace) + e.calls && os.script == e.rest
      ensures os.open == old(os.open)
    {
      var fd := myMaster;
      if fd == -1 {
        return -1;
      }
      var haveBytes;
      if myPipe[0] == -1 {
        return -1;
      }
      if useSelect {
        haveBytes := Select(os, myPipe[0], fd);
      } else {
        haveBytes := Poll(os, myPipe[0], fd);
      }
      if haveBytes {
        n := os.Sys(Syscall.Read(fd, len));
      } else {
        n := -1;
      }
    }

    method Write(len: int) returns (n: int)
      requires Valid()
      modifies os
      ensures var e := WriteSession(old(Descriptors()), len, old(os.script));
        n == e.value && os.trace == old(os.trace) + e.calls && os.script == e.rest
      ensures os.open == old(os.open)
    {
      n := os.Sys(Syscall.Write(myMaster, len));
    }
  }
}
