/** The PTY allocation protocol: acquire a master handle, grant and unlock the
    slave side, then resolve the slave's device name.  Each step's failure has
    its own negative code, and every failure after the handle was acquired
    closes the handle before returning. */
module Allocator {
  import opened Facade

  /** The name returned alongside every failure code. */
  const PTMX := "/dev/ptmx"

  /** The pair the allocation returns: a master descriptor (negative on
      failure) and a slave name, which could be null in the source's type. */
  datatype Pair = Pair(master: int, name: Option<string>)

  /** Whether a call of the protocol reported failure. */
  predicate StepFailed(e: Event)
  {
    (e.Returned? && e.ret < 0) || (e.Named? && e.name.None?)
  }

  /** Whether `e` is step `i` (counted from 0) of the protocol on handle `fd`. */
  predicate IsStep(e: Event, i: nat, fd: int)
  {
    if i == 0 then e.Returned? && e.call == Getpt && e.ret == fd
    else if i == 1 then e.Returned? && e.call == Grantpt(fd)
    else if i == 2 then e.Returned? && e.call == Unlockpt(fd)
    else i == 3 && e.Named? && e.ptsFd == fd
  }

  /** The first `k` calls are the protocol's first `k` steps on handle `fd`
      (the protocol has four steps). */
  predicate Ran(es: seq<Event>, fd: int, k: nat)
  {
    k <= |es| && k <= 4 &&
    (k > 0 ==> IsStep(es[0], 0, fd)) && (k > 1 ==> IsStep(es[1], 1, fd)) &&
    (k > 2 ==> IsStep(es[2], 2, fd)) && (k > 3 ==> IsStep(es[3], 3, fd))
  }

  /** None of the first `k` calls reported failure. */
  predicate Passed(es: seq<Event>, k: nat)
  {
    k <= |es| && k <= 4 &&
    (k > 0 ==> !StepFailed(es[0])) && (k > 1 ==> !StepFailed(es[1])) &&
    (k > 2 ==> !StepFailed(es[2])) && (k > 3 ==> !StepFailed(es[3]))
  }

  /** What one allocation does, given the host's answers. */
  function MasterOpen(s: Script): Effect<Pair>
  {
    var (fdm, s1) := s.NextInt();
    var got := Returned(Getpt, fdm);
    if fdm < 0 then
      Effect(Pair(-1, Some(PTMX)), [got], s1)
    else
      var (g, s2) := s1.NextInt();
      var granted := Returned(Grantpt(fdm), g);
      if g < 0 then
        var (c, s3) := s2.NextInt();
        Effect(Pair(-2, Some(PTMX)), [got] + [granted] + [Returned(Close(fdm), c)], s3)
      else
        var (u, s3) := s2.NextInt();
        var unlocked := Returned(Unlockpt(fdm), u);
        if u < 0 then
          var (c, s4) := s3.NextInt();
          Effect(Pair(-3, Some(PTMX)), [got] + [granted] + [unlocked] + [Returned(Close(fdm), c)], s4)
        else
          var (ptr, s4) := s3.NextName();
          var named := Named(fdm, ptr);
          if ptr.None? then
            var (c, s5) := s4.NextInt();
            Effect(Pair(-4, Some(PTMX)), [got] + [granted] + [unlocked] + [named] + [Returned(Close(fdm), c)], s5)
          else
            Effect(Pair(fdm, ptr), [got] + [granted] + [unlocked] + [named], s4)
  }

  /** What an allocation promises, whatever the host answers. */
  lemma MasterOpenOutcomes(s: Script)
    ensures var e := MasterOpen(s);
      |e.calls| >= 1 && e.calls[0].Returned? && e.calls[0].call == Getpt
    // no path returns a null name
    ensures MasterOpen(s).value.name.Some?
    // success: all four steps ran and succeeded, and the handle is returned
    // with the resolved name
    ensures var e := MasterOpen(s); var fd := e.calls[0].ret;
      e.value.master >= 0 ==>
        e.value.master == fd && |e.calls| == 4 &&
        Ran(e.calls, fd, 4) && Passed(e.calls, 4) &&
        e.value.name == e.calls[3].name
    // failure: the code is minus the number of the step that failed, every
    // earlier step succeeded, the name is the multiplexer device, and the last
    // call closes the handle unless acquiring it was what failed
    ensures var e := MasterOpen(s); var fd := e.calls[0].ret; var k := -e.value.master;
      e.value.master < 0 ==>
        1 <= k <= 4 && e.value.name == Some(PTMX) &&
        |e.calls| == (if k == 1 then 1 else k + 1) &&
        Ran(e.calls, fd, k) && Passed(e.calls, k - 1) &&
        StepFailed(e.calls[k - 1]) &&
        (k > 1 ==> Last(e.calls).Returned? && Last(e.calls).call == Close(fd))
  {
  }

  /** The acquired handle is closed exactly once on the failure paths that
      acquired it, and never otherwise. */
  lemma MasterOpenClosesOnce(s: Script)
    ensures var e := MasterOpen(s);
      |e.calls| >= 1 && CloseCount(e.calls, e.calls[0].ret) == (if e.value.master < -1 then 1 else 0)
  {
    var (fdm, s1) := s.NextInt();
    var got := Returned(Getpt, fdm);
    CloseCountSnoc([], got, fdm);
    assert [] + [got] == [got];
    if fdm >= 0 {
      var (g, s2) := s1.NextInt();
      var granted := Returned(Grantpt(fdm), g);
      CloseCountSnoc([got], granted, fdm);
      if g < 0 {
        var (c, _) := s2.NextInt();
        CloseCountSnoc([got] + [granted], Returned(Close(fdm), c), fdm);
      } else {
        var (u, s3) := s2.NextInt();
        var unlocked := Returned(Unlockpt(fdm), u);
        CloseCountSnoc([got] + [granted], unlocked, fdm);
        if u < 0 {
          var (c, _) := s3.NextInt();
          CloseCountSnoc([got] + [granted] + [unlocked], Returned(Close(fdm), c), fdm);
        } else {
          var (ptr, s4) := s3.NextName();
          var named := Named(fdm, ptr);
          CloseCountSnoc([got] + [granted] + [unlocked], named, fdm);
          if ptr.None? {
            var (c, _) := s4.NextInt();
            CloseCountSnoc([got] + [granted] + [unlocked] + [named], Returned(Close(fdm), c), fdm);
          }
        }
      }
    }
  }

  /** No descriptor acquired by a failed allocation stays open; a successful
      one leaves exactly the returned master open. */
  lemma MasterOpenNoLeak(s: Script, open: set<int>)
    ensures var e := MasterOpen(s);
      (e.value.master == -1 ==> TrackAll(open, e.calls) == open) &&
      (e.value.master < -1 ==> TrackAll(open, e.calls) == open - {e.calls[0].ret}) &&
      (e.value.master >= 0 ==> TrackAll(open, e.calls) == open + {e.value.master})
  {
    var (fdm, s1) := s.NextInt();
    var got := Returned(Getpt, fdm);
    assert TrackAll(open, [got]) == Track(open, got) by {
      assert [got][1..] == [];
    }
    if fdm >= 0 {
      var (g, s2) := s1.NextInt();
      var granted := Returned(Grantpt(fdm), g);
      TrackAllSnoc(open, [got], granted);
      if g < 0 {
        var (c, _) := s2.NextInt();
        TrackAllSnoc(open, [got] + [granted], Returned(Close(fdm), c));
      } else {
        var (u, s3) := s2.NextInt();
        var unlocked := Returned(Unlockpt(fdm), u);
        TrackAllSnoc(open, [got] + [granted], unlocked);
        if u < 0 {
          var (c, _) := s3.NextInt();
          TrackAllSnoc(open, [got] + [granted] + [unlocked], Returned(Close(fdm), c));
        } else {
          var (ptr, s4) := s3.NextName();
          var named := Named(fdm, ptr);
          TrackAllSnoc(open, [got] + [granted] + [unlocked], named);
          if ptr.None? {
            var (c, _) := s4.NextInt();
            TrackAllSnoc(open, [got] + [granted] + [unlocked] + [named], Returned(Close(fdm), c));
          }
        }
      }
    }
  }

  /** The name-resolution call; the process-wide lock around it is not
      modelled (calls are sequential here). */
  method Ptsname(os: Host, fd: int) returns (name: Option<string>)
    modifies os
    ensures (name, os.script) == old(os.script).NextName()
    ensures os.trace == old(os.trace) + [Named(fd, name)] && os.open == old(os.open)
  {
    name := os.Ptsname(fd);
  }

  /** The allocation protocol, run against the host. */
  method PtyMasterOpen(os: Host) returns (fdm: int, name: Option<string>)
    modifies os
    ensures var e := MasterOpen(old(os.script));
      fdm == e.value.master && name == e.value.name &&
      os.trace == old(os.trace) + e.calls && os.script == e.rest
    // the open descriptors change as MasterOpenNoLeak states: a failure leaves
    // nothing acquired open, a success adds exactly the master
    ensures fdm == -1 ==> os.open == old(os.open)
    ensures fdm < -1 ==> os.open == old(os.open) - {MasterOpen(old(os.script)).calls[0].ret}
    ensures fdm >= 0 ==> os.open == old(os.open) + {fdm}
  {
    ghost var s0, t0, open0 := os.script, os.trace, os.open;
    var ptmx := PTMX;
    fdm := os.Sys(Getpt);
    ghost var calls := [Returned(Getpt, fdm)];
    if fdm < 0 {
      return -1, Some(ptmx);
    }
    ghost var acquired := os.open;
    assert acquired == open0 + {fdm};
    var status := os.Sys(Grantpt(fdm));
    TraceSnoc(t0, calls, Returned(Grantpt(fdm), status));
    calls := calls + [Returned(Grantpt(fdm), status)];
    if status < 0 {
      var c := os.Sys(Close(fdm));
      assert os.open == acquired - {fdm};
      TraceSnoc(t0, calls, Returned(Close(fdm), c));
      calls := calls + [Returned(Close(fdm), c)];
      assert calls == MasterOpen(s0).calls;
      return -2, Some(ptmx);
    }
    status := os.Sys(Unlockpt(fdm));
    TraceSnoc(t0, calls, Returned(Unlockpt(fdm), status));
    calls := calls + [Returned(Unlockpt(fdm), status)];
    if status < 0 {
      var c := os.Sys(Close(fdm));
      assert os.open == acquired - {fdm};
      TraceSnoc(t0, calls, Returned(Close(fdm), c));
      calls := calls + [Returned(Close(fdm), c)];
      assert calls == MasterOpen(s0).calls;
      return -3, Some(ptmx);
    }
    var ptr := Ptsname(os, fdm);
    assert os.open == acquired;
    TraceSnoc(t0, calls, Named(fdm, ptr));
    calls := calls + [Named(fdm, ptr)];
    if ptr.None? {
      var c := os.Sys(Close(fdm));
      assert os.open == acquired - {fdm};
      TraceSnoc(t0, calls, Returned(Close(fdm), c));
      calls := calls + [Returned(Close(fdm), c)];
      assert calls == MasterOpen(s0).calls;
      return -4, Some(ptmx);
    }
    assert calls == MasterOpen(s0).calls;
    return fdm, ptr;
  }
}
