# pty4j Unix pseudo-terminal core, modelled in Dafny

This project models the Unix pseudo-terminal session object of pty4j
(`com.pty4j.unix.Pty`) and proves properties of the model. It covers:

- the PTY allocation protocol: `getpt`, `grantpt`, `unlockpt`, `ptsname`,
  with a distinct negative code for each failing step and the master handle
  released on every failure after it was acquired;
- the session's descriptor fields: the master, the optional read-only slave
  descriptor that keeps output readable after the child exits, and the wake
  pipe. The model covers how the constructor sets them up and how
  `close`/`close0`/`breakRead` retire them;
- the read gate and the two readiness waits: a `poll` loop that retries only
  transient failures, and a single `select`;
- the platform probe that picks `select` on Mac OS X 10.6 and earlier;
- signal delivery, which tries the process group first and the single
  process only when that fails with -1.

The operating system is a `Facade.Host` object. Each call it answers takes
its result from a script the caller supplies. When a queue of answers runs
out, every further call fails. As ghost state, the host records every call
with its answer, and the set of descriptors the calls have left open.

Each protocol is a pure function from a script to an `Effect`: its result,
the calls issued in order, and the answers left over. The properties are
stated on these functions. The imperative code is written as methods of
the `Session.Pty` class and as module-level methods (`PtyMasterOpen`,
`Poll`, `Select`, `Raise`) that take the `Host` as a parameter. Each method is proved to produce
exactly the effect its function describes. `Pty.IsClosed` is the
`myMaster == -1` test, and `Pty.Close` ensures it.

Behaviour of the code worth knowing:

- A failed allocation does not make the constructor throw. Every path
  returns a non-null name (`/dev/ptmx` on failure), so the null-name check
  never fires. The negative code becomes `myMaster`. Only code -1 leaves the
  session looking closed; after -2, -3 or -4, `isClosed` is false and `close`
  closes that negative descriptor.
- The status of `pipe()` is not checked. On failure both pipe entries stay 0.
  The first `close` of a session whose master is not -1 then writes the wake
  byte to descriptor 0 and closes it twice (`Session.PipeFailureClosesZeroTwice`).
  When getpt also failed, `close` never reaches `close0`, and descriptor 0 is
  not closed as a pipe end (`Session.GetptFailureLeaksPipe`).
- When getpt fails and output is preserved, the constructor opens the name
  `/dev/ptmx` read-only and keeps that descriptor as the slave
  (`Session.GetptFailureOpensPtmx`). On a real system, that open allocates a
  fresh PTY master, which `close` later closes as if it were the slave.
- When `getpt` fails, the constructor still creates the wake pipe, but
  `close` reaches `close0` only when the master is not -1, so that pipe is
  never closed (`Session.GetptFailureLeaksPipe`).
- `write` after `close` still issues a write, on descriptor -1.
- When the master's close answers -1, `close` throws before it looks at the
  slave. The slave stays open until a later `close`.

## Model

| member | source | states |
|---|---|---|
| Allocator.MasterOpen | src/com/pty4j/unix/Pty.java:135-162 | The model of ptyMasterOpen: getpt, grantpt, unlockpt, ptsname in order, with a code per failing step. Its properties are stated by MasterOpenOutcomes, MasterOpenClosesOnce and MasterOpenNoLeak. |
| Allocator.MasterOpenOutcomes | src/com/pty4j/unix/Pty.java:135-162 | getpt is always the first call. Success means all four steps ran and succeeded: the master is the acquired handle and the name is ptsname's answer. Failure code -k means steps 1..k-1 succeeded and step k failed. The name is then "/dev/ptmx", and for k > 1 the last call closes the handle. No path returns a null name. |
| Allocator.MasterOpenClosesOnce | src/com/pty4j/unix/Pty.java:146-160 | The acquired handle is closed exactly once on failures -2, -3 and -4. It is never closed on success or on failure -1. |
| Allocator.MasterOpenNoLeak | src/com/pty4j/unix/Pty.java:141-160 | Open descriptors after an allocation: code -1 opens nothing; codes -2..-4 leave nothing open that was acquired; success leaves exactly the returned master open. |
| Allocator.PtyMasterOpen | src/com/pty4j/unix/Pty.java:135-162 | The allocation method issues exactly MasterOpen's calls and returns its pair. Code -1 leaves the open descriptors unchanged; codes -2..-4 leave the acquired handle closed; success adds only the master. |
| Allocator.Ptsname | src/com/pty4j/unix/Pty.java:164-169 | One name lookup on the given handle. It takes the next name answer, and that answer may be null. |
| Session.OpenSession | src/com/pty4j/unix/Pty.java:61-82 | The model of the constructor's field setup. Its properties are stated by OpenSessionFields, GetptFailureLeaksPipe and PipeFailureClosesZeroTwice. |
| Session.OpenSessionFields | src/com/pty4j/unix/Pty.java:61-82 | Constructor setup. The master field is the allocation's code, so the session starts closed iff getpt failed. The name is "/dev/ptmx" on failure and the ptsname answer on success. The slave is opened read-only by that name only when output is preserved, and is -1 otherwise. The pipe is created last; if it fails, both entries stay 0. |
| Session.Pty.constructor | src/com/pty4j/unix/Pty.java:61-82 | The constructor's fields, calls and open descriptors are exactly those of OpenSession. |
| Session.Close0Effect | src/com/pty4j/unix/Pty.java:226-239 | close0 issues, in order: close of the saved master, a 1-byte write to the pipe's write end, close of the read end, close of the write end. It returns the master close's status. |
| Session.Pty.Close0 | src/com/pty4j/unix/Pty.java:226-239 | close0 runs only after the master field is already -1. It issues Close0Effect's calls and sets both pipe entries to -1. |
| Session.Pty.BreakRead | src/com/pty4j/unix/Pty.java:241-243 | One 1-byte write to the pipe's write end; nothing else changes. |
| Session.CloseSession | src/com/pty4j/unix/Pty.java:192-218 | Afterwards the master is -1, whatever happened. With nothing open, nothing is issued or changed. An open master gets close0's four calls in order, and both pipe fields become -1. A master close answering -1 throws, with the slave untouched. Otherwise the slave is closed iff it was open, and the call throws iff that close answers -1. |
| Session.Pty.Close | src/com/pty4j/unix/Pty.java:188-218 | close leaves the session closed (isClosed) and makes exactly CloseSession's calls, field changes and result. |
| Session.Pty.IsClosed | src/com/pty4j/unix/Pty.java:188-190 | The model of isClosed: the master field is -1. Pty.Close ensures it afterwards, and ReadAfterClose shows that read short-circuits then. |
| Session.CloseIdempotent | src/com/pty4j/unix/Pty.java:192-218 | After a close that returned normally, another close issues nothing and changes nothing. |
| Session.CloseAfterMasterError | src/com/pty4j/unix/Pty.java:193-217 | After a close that threw on the master, a second close only closes the still-open slave. |
| Session.RepeatedCloseClosesOnce | src/com/pty4j/unix/Pty.java:192-239 | With the master and both pipe ends open and all four fields distinct, any number of closes closes the master and each pipe end exactly once. The slave is closed at most once, and exactly once by the second close. |
| Session.MasterlessCloseKeepsPipe | src/com/pty4j/unix/Pty.java:192-218 | With the master at -1, any number of closes leave the pipe fields as they are and issue at most the slave's close, so neither pipe end is closed. |
| Session.GetptFailureLeaksPipe | src/com/pty4j/unix/Pty.java:61-82 | When getpt fails, the session starts with master -1 and the pipe created. No number of later closes ever closes either pipe end. |
| Session.ClosedMasterRepeatedly | src/com/pty4j/unix/Pty.java:206-217 | Once master and pipe are closed, further closes close the slave at most once, and issue nothing else. |
| Session.FirstCloseCounts | src/com/pty4j/unix/Pty.java:192-239 | The first close of an open session closes the master and both pipe ends once each. It closes the slave once if it reset the slave field, and not at all otherwise. |
| Session.PipeFailureClosesZeroTwice | src/com/pty4j/unix/Pty.java:81 | After a failed pipe creation, the first close of a session whose master is not -1 (success, or codes -2..-4) closes descriptor 0 twice. When getpt also failed, close never reaches close0 and descriptor 0 is not closed as a pipe end (GetptFailureLeaksPipe). |
| Session.GetptFailureOpensPtmx | src/com/pty4j/unix/Pty.java:61-82 | When getpt fails and output is preserved, the constructor opens "/dev/ptmx" read-only and keeps that descriptor as the slave. |
| Session.ReadSession | src/com/pty4j/unix/Pty.java:245-257 | read returns -1 with no call when the master or the pipe's read end is -1. Otherwise it first issues exactly the wait's calls on the pipe's read end and the master, followed by at most one read. A read call is issued iff the wait reported master data. That read is on the saved master, and its answer is the result; otherwise the result is -1. |
| Session.Pty.Read | src/com/pty4j/unix/Pty.java:245-257 | The read method issues exactly ReadSession's calls, returns its result, and changes no field. |
| Session.ReadAfterClose | src/com/pty4j/unix/Pty.java:245-251 | After close, whether or not it threw, read returns -1 without any call. |
| Session.WriteSession | src/com/pty4j/unix/Pty.java:285-287 | write issues a single write on the master field as it is, and returns its answer. |
| Session.Pty.Write | src/com/pty4j/unix/Pty.java:285-287 | The write method issues exactly WriteSession's call. |
| Session.WriteAfterClose | src/com/pty4j/unix/Pty.java:285-287 | After close, write still issues a write, on descriptor -1. |
| Multiplexer.PollWait | src/com/pty4j/unix/Pty.java:259-273 | The model of the poll loop, one poll per script answer. Its properties are stated by PollWaitRetriesOnlyTransient and WakeAloneIsNoData, and Poll is proved equal to it. |
| Multiplexer.PollWaitRetriesOnlyTransient | src/com/pty4j/unix/Pty.java:259-273 | The poll loop polls the pipe and the master, taking answers in order. It retries exactly the answers that are <= 0 with errno EAGAIN or EINTR. Its result is true iff the final answer is positive with POLLIN set on the master entry. |
| Multiplexer.Poll | src/com/pty4j/unix/Pty.java:259-273 | The while-true loop issues exactly PollWait's calls and returns its result. It terminates because each retry consumes an answer. |
| Multiplexer.WakeAloneIsNoData | src/com/pty4j/unix/Pty.java:267-272 | A positive poll without POLLIN on the master entry, such as a wake byte alone, ends the loop with false. |
| Multiplexer.SelectWait | src/com/pty4j/unix/Pty.java:275-283 | select makes one call, with no retry, on both descriptors, with nfds = max + 1. Its result is whether the master is set, whatever select returned. |
| Multiplexer.Select | src/com/pty4j/unix/Pty.java:275-283 | The select method issues exactly SelectWait's call. |
| Multiplexer.Wait | src/com/pty4j/unix/Pty.java:253 | The wait chosen by the backend flag makes at least one call and never reads, writes, opens or closes. |
| Platform.IsOSXLessThanOrEqualTo106 | src/com/pty4j/unix/Pty.java:42-49 | The model of the probe: the name test, then the version test. Its properties are stated by ProbeCharacterization. |
| Platform.VersionAtMost106 | src/com/pty4j/unix/Pty.java:44-46 | The model of the version test: split on dots, check for "10" followed by a second field, parse that field. Its properties are stated by VersionCharacterization, MinorVersionDecides and NonNumericMinorThrows. |
| Platform.ProbeCharacterization | src/com/pty4j/unix/Pty.java:42-49 | The probe answers true iff all of these hold: the lower-cased name starts with "mac"; the lower-cased version starts with "10."; something other than dots follows; and the field after "10." parses to at most 6. It throws iff the same conditions hold but that field does not parse. Otherwise it answers false. |
| Platform.VersionCharacterization | src/com/pty4j/unix/Pty.java:44-46 | The same decision for the version test alone, stated without the split. |
| Platform.MinorVersionDecides | src/com/pty4j/unix/Pty.java:46 | For "10.<m>" and "10.<m>.<...>", the answer is m <= 6, compared as a number (10.15 is later than 10.6). |
| Platform.NonNumericMinorThrows | src/com/pty4j/unix/Pty.java:46 | A non-numeric minor version ("10.x") makes the probe throw. |
| Platform.JavaSplit | src/com/pty4j/unix/Pty.java:45 | Splitting on "." with no limit. Without a dot the result is the string itself. Otherwise it is a prefix of all the fields that leaves out exactly the trailing empty fields: everything dropped is empty, and what is kept does not end in an empty field. The result is empty iff the string consists only of dots. |
| Platform.DropTrailingEmpty | src/com/pty4j/unix/Pty.java:45 | A prefix of the fields that does not end in an empty field and drops only empty fields. |
| Platform.SplitAll | src/com/pty4j/unix/Pty.java:45 | At least one field; no field contains a dot; the first is the text up to the first dot. |
| Platform.JoinSplitAll | src/com/pty4j/unix/Pty.java:45 | Joining the fields with dots gives back the string. |
| Platform.SplitAllJoin | src/com/pty4j/unix/Pty.java:45 | Dot-free fields are recovered exactly by splitting their join. |
| Platform.ParseInt | src/com/pty4j/unix/Pty.java:46 | Integer.valueOf succeeds iff the text is an optional sign followed by one or more digits, with a value in the 32-bit range. It then gives that value. |
| Platform.ParseIntDecimal | src/com/pty4j/unix/Pty.java:46 | A decimal spelling, bare or with either sign, parses back to its number when in range. A bare spelling above the range fails. |
| Signals.RaiseEffect | src/com/pty4j/unix/Pty.java:176-186 | killpg is always called first. kill, with the same arguments, is called iff killpg answered -1. The status is the last call's answer. |
| Signals.Raise | src/com/pty4j/unix/Pty.java:176-186 | The raise method issues exactly RaiseEffect's calls and returns its status. |

## Left out

- Concurrency: the two monitors and the ptsname lock are not modelled, and neither is `volatile` on the descriptor fields. Operations run one at a time, so nothing is said about a blocked read waking when another thread closes the session.
- The native calls (getpt, grantpt, unlockpt, ptsname, open, close, read, write, pipe, poll, select, kill, killpg) are foreign code. They are replaced by the scripted `Host`. Buffer contents are not modelled; only lengths and results are.
- Multiplexer.Poll: errno values use Linux numbering (EINTR 4, EAGAIN 11). An exhausted script answers poll with EBADF so that the loop ends; an unbounded run of transient failures is not modelled.
- Platform.ParseInt: only ASCII digits are accepted. The host language also accepts other Unicode decimal digits.
- Platform.Lower: lower-casing is ASCII-only; non-ASCII letters are not lower-cased. This cannot change the probe's answer, which only compares against ASCII text.
- Platform.IsOSXLessThanOrEqualTo106: the two system properties are parameters. A missing property, and so a null pointer, is not modelled. The format error is a result value, although in the source it escapes the static initializer that sets `useSelect`. `useSelect` itself is a parameter of `Read`.
- setWindowSize and getWinSize pass through to an executor that is not part of this model. The unused logging latch is not modelled either.
- finalize runs under garbage collection, at an unknown time.
- The input/output stream objects and the simple getters (slave name, master descriptor, console flag, streams) are not modelled.
- Session.Pty.Close: the two IOExceptions are the `IoError` status. Throwing and propagation are not modelled.
