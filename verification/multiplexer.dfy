/** The two readiness waits a read uses: a poll loop that retries on transient
    errors, and a single select call.  Both watch the wake pipe's read end and
    the master descriptor, and both report whether the MASTER is readable. */
module Multiplexer {
  import opened Facade

  /** A failed poll the loop retries: nothing ready and errno EAGAIN or EINTR. */
  predicate Transient(a: PollAnswer)
  {
    a.count <= 0 && (a.errno == EAGAIN || a.errno == EINTR)
  }

  /** The poll loop: poll both descriptors until an answer is not a transient
      failure, then report the master entry's POLLIN bit (or false when the
      poll failed for good). */
  function PollWait(pipeFd: int, fd: int, s: Script): Effect<bool>
    decreases |s.polls|
  {
    var (a, s1) := s.NextPoll();
    var polled := Polled(pipeFd, fd, a);
    if a.count > 0 then
      Effect(a.masterRevents & POLLIN != 0, [polled], s1)
    else if a.errno != EAGAIN && a.errno != EINTR then
      Effect(false, [polled], s1)
    else
      var more := PollWait(pipeFd, fd, s1);
      Effect(more.value, [polled] + more.calls, more.rest)
  }

  /** What the poll loop promises: it polls both descriptors, taking answers in
      order, retries exactly the transient failures, and reports the master's
      readability in the answer that ended it. */
  lemma {:induction false} PollWaitRetriesOnlyTransient(pipeFd: int, fd: int, s: Script)
    decreases |s.polls|
    ensures var e := PollWait(pipeFd, fd, s);
      1 <= |e.calls| &&
      (forall i :: 0 <= i < |e.calls| ==> e.calls[i].Polled? && e.calls[i].pipeFd == pipeFd && e.calls[i].fd == fd) &&
      // answers are taken from the script in order
      (forall i :: 0 <= i < |e.calls| && i < |s.polls| ==> e.calls[i].poll == s.polls[i]) &&
      // only transient failures are retried; the last answer ends the loop
      (forall i :: 0 <= i < |e.calls| - 1 ==> Transient(e.calls[i].poll)) &&
      !Transient(Last(e.calls).poll) &&
      // the result is the master's readability in the last answer: a failure
      // or a wake byte alone gives false
      (e.value <==> Last(e.calls).poll.count > 0 && Last(e.calls).poll.masterRevents & POLLIN != 0) &&
      e.rest == s.(polls := e.rest.polls)
  {
    var (a, s1) := s.NextPoll();
    if Transient(a) {
      PollWaitRetriesOnlyTransient(pipeFd, fd, s1);
      var more := PollWait(pipeFd, fd, s1);
      var e := PollWait(pipeFd, fd, s);
      assert e.calls == [Polled(pipeFd, fd, a)] + more.calls;
      forall i | 0 <= i < |e.calls| && i < |s.polls|
        ensures e.calls[i].poll == s.polls[i]
      {
        if i > 0 {
          assert e.calls[i] == more.calls[i - 1];
          assert s.polls[i] == s1.polls[i - 1];
        }
      }
      forall i | 0 <= i < |e.calls| - 1
        ensures Transient(e.calls[i].poll)
      {
        if i > 0 {
          assert e.calls[i] == more.calls[i - 1];
        }
      }
    }
  }

  /** The select call: one call, no retry, on both descriptors. */
  function SelectWait(pipeFd: int, fd: int, s: Script): (e: Effect<bool>)
    ensures |e.calls| == 1 && e.calls[0].Selected?
    ensures e.calls[0].selPipeFd == pipeFd && e.calls[0].selFd == fd
    // the descriptor-count argument covers both descriptors and no more
    ensures e.calls[0].nfds > pipeFd && e.calls[0].nfds > fd
    ensures e.calls[0].nfds == pipeFd + 1 || e.calls[0].nfds == fd + 1
    // the result is the master's membership after the call, whatever select returned
    ensures e.value == e.calls[0].select.masterSet
    ensures e.rest == s.(selects := e.rest.selects)
  {
    var nfds := (if fd > pipeFd then fd else pipeFd) + 1;
    var (a, s1) := s.NextSelect();
    Effect(a.masterSet, [Selected(nfds, pipeFd, fd, a)], s1)
  }

  /** The wait a read performs: the backend is chosen by the process-wide
      `useSelect` flag. */
  function Wait(useSelect: bool, pipeFd: int, fd: int, s: Script): (e: Effect<bool>)
    // a wait issues no integer-answered call (no read, write, open or close)
    ensures forall i :: 0 <= i < |e.calls| ==> !e.calls[i].Returned?
    ensures 1 <= |e.calls|
  {
    if useSelect then SelectWait(pipeFd, fd, s)
    else PollWaitRetriesOnlyTransient(pipeFd, fd, s); PollWait(pipeFd, fd, s)
  }

  /** A poll answered only by the wake pipe never reports data, whatever the
      other entries say. */
  lemma WakeAloneIsNoData(pipeFd: int, fd: int, s: Script)
    requires |s.polls| > 0 && s.polls[0].count > 0 && s.polls[0].masterRevents & POLLIN == 0
    ensures !PollWait(pipeFd, fd, s).value && |PollWait(pipeFd, fd, s).calls| == 1
  {
  }

  /** One turn of the poll loop. */
  lemma PollWaitUnfold(pipeFd: int, fd: int, s: Script)
    ensures var a := s.NextPoll().0; var s1 := s.NextPoll().1;
      var polled := Polled(pipeFd, fd, a); var e := PollWait(pipeFd, fd, s);
      if a.count > 0 then e == Effect(a.masterRevents & POLLIN != 0, [polled], s1)
      else if !Transient(a) then e == Effect(false, [polled], s1)
      else |s1.polls| < |s.polls| &&
           e == Effect(PollWait(pipeFd, fd, s1).value, [polled] + PollWait(pipeFd, fd, s1).calls, PollWait(pipeFd, fd, s1).rest)
  {
  }

  /** The poll loop, run against the host. */
  method Poll(os: Host, pipeFd: int, fd: int) returns (ready: bool)
    modifies os
    ensures var e := PollWait(pipeFd, fd, old(os.script));
      ready == e.value && os.trace == old(os.trace) + e.calls && os.script == e.rest
    ensures os.open == old(os.open)
  {
    ghost var done: seq<Event> := [];
    var answer: PollAnswer;
    while true
      invariant os.trace == old(os.trace) + done && os.open == old(os.open)
      invariant var e0 := PollWait(pipeFd, fd, old(os.script));
        var e := PollWait(pipeFd, fd, os.script);
        e0 == Effect(e.value, done + e.calls, e.rest)
      decreases |os.script.polls|
    {
      PollWaitUnfold(pipeFd, fd, os.script);
      answer := os.Poll(pipeFd, fd);
      ghost var polled := Polled(pipeFd, fd, answer);
      TraceSnoc(old(os.trace), done, polled);
      ShiftOne(done, polled, PollWait(pipeFd, fd, os.script).calls);
      done := done + [polled];
      if answer.count > 0 {
        break;
      }
      var errno := answer.errno;
      if errno != EAGAIN && errno != EINTR {
        return false;
      }
    }
    return answer.masterRevents & POLLIN != 0;
  }

  /** The select call, run against the host. */
  method Select(os: Host, pipeFd: int, fd: int) returns (ready: bool)
    modifies os
    ensures var e := SelectWait(pipeFd, fd, old(os.script));
      ready == e.value && os.trace == old(os.trace) + e.calls && os.script == e.rest
    ensures os.open == old(os.open)
  {
    var nfds := (if fd > pipeFd then fd else pipeFd) + 1;
    var answer := os.Select(nfds, pipeFd, fd);
    ready := answer.masterSet;
  }
}
