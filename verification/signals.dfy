/** Signal delivery to a child: the signal goes to the child's process group
    first, and to the child alone only when the group call fails. */
module Signals {
  import opened Facade

  /** What one delivery does, given the host's answers. */
  function RaiseEffect(pid: int, sig: int, s: Script): (e: Effect<int>)
    // the process group is always tried first
    ensures 1 <= |e.calls| <= 2 && e.calls[0].Returned? && e.calls[0].call == Killpg(pid, sig)
    // the single process is tried exactly when the group call answered -1
    ensures |e.calls| == 2 <==> e.calls[0].ret == -1
    ensures |e.calls| == 2 ==> e.calls[1].Returned? && e.calls[1].call == Kill(pid, sig)
    // the status is the answer of the last call made
    ensures e.value == Last(e.calls).ret
    // answers are consumed in order
    ensures e.calls[0].ret == s.NextInt().0
    ensures |e.calls| == 2 ==> e.calls[1].ret == s.NextInt().1.NextInt().0
    ensures e.rest == if |e.calls| == 2 then s.NextInt().1.NextInt().1 else s.NextInt().1
  {
    var (status, s1) := s.NextInt();
    var group := Returned(Killpg(pid, sig), status);
    if status == -1 then
      var (single, s2) := s1.NextInt();
      Effect(single, [group, Returned(Kill(pid, sig), single)], s2)
    else
      Effect(status, [group], s1)
  }

  /** Signal delivery, run against the host. */
  method Raise(os: Host, pid: int, sig: int) returns (status: int)
    modifies os
    ensures var e := RaiseEffect(pid, sig, old(os.script));
      status == e.value && os.trace == old(os.trace) + e.calls && os.script == e.rest
    ensures os.open == old(os.open)
  {
    status := os.Sys(Killpg(pid, sig));
    if status == -1 {
      status := os.Sys(Kill(pid, sig));
    }
  }
}
