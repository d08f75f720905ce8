/**
 * The race checker's read tests (tests/race_checker/races_io.c) on the
 * instruction-level machine: three ways of reading one byte from a pipe
 * while one signal arrives at a chosen instruction, how the checker
 * classifies each outcome, and the verdicts its sweep expects of each:
 * success for sigsafe's wrapper, an ignored signal for the
 * check-then-call pattern, a forgotten result for the jump pattern.
 */
module RacesIo {
  import opened Wrappers
  import opened SyscallTable
  import opened Registry
  import opened Machine
  import D = Dispatcher
  import Z = Zones

  /** The checker's classification of one run. */
  datatype RunResult = Interrupted | Normal | Weird

  /** What a raw kernel result looks like through libc: `-1` with `errno` set, or the value itself. */
  datatype LibcResult = LibcResult(retval: int, errno: int)

  function Libc(raw: int): LibcResult {
    if raw < 0 then LibcResult(-1, -raw) else LibcResult(raw, 0)
  }

  /** `do_sigsafe_read`'s classification of the wrapper's return value. */
  function DoSigsafeRead(retval: int): (r: RunResult)
    ensures r == Interrupted <==> retval == -D.EINTR
    ensures r == Normal <==> retval == 1
  {
    if retval == -D.EINTR then Interrupted
    else if retval == 1 then Normal
    else Weird
  }

  /** `do_racebefore_read`'s classification of what libc's `read` returned. */
  function ClassifyLibcRead(raw: int): (r: RunResult)
    ensures r == Interrupted <==> raw == -D.EINTR
    ensures r == Normal <==> raw == 1
  {
    var res := Libc(raw);
    if res.retval == -1 && res.errno == D.EINTR then Interrupted
    else if res.retval == 1 then Normal
    else Weird
  }

  /** `do_raceafter_read`'s classification of what `read` returned: it has no `EINTR` case. */
  function ClassifyJumpRead(raw: int): (r: RunResult)
    ensures r != Interrupted
    ensures r == Normal <==> raw == 1
  {
    if Libc(raw).retval == 1 then Normal else Weird
  }

  /** The wrapper's return value: `-EINTR` from the early path, the kernel's value otherwise. */
  function WrapperReturn(e: Exit): int {
    match e
    case Bailed => -D.EINTR
    case Finished(v) => v
  }

  function SigsafeVerdict(e: Exit): RunResult {
    DoSigsafeRead(WrapperReturn(e))
  }

  /** The early return is `do_racebefore_read`'s flag test; otherwise `read`'s value is classified. */
  function RacebeforeVerdict(e: Exit): RunResult {
    match e
    case Bailed => Interrupted
    case Finished(v) => ClassifyLibcRead(v)
  }

  /** The early return is `do_raceafter_read`'s flag test; otherwise `read`'s value is classified. */
  function RaceafterVerdict(e: Exit): RunResult {
    match e
    case Bailed => Interrupted
    case Finished(v) => ClassifyJumpRead(v)
  }

  /** The call consumed the byte but the caller was told it was interrupted: the result is lost. */
  predicate Forgotten(r: State) {
    r.consumed && r.exit == Some(Bailed)
  }

  /** `do_racebefore_read`: test the checker's own flag, then call `read`. */
  const RacebeforeCode: seq<Instr> := [LoadNoted, BranchIfFlag(4), KernelCall, ReturnResult, ReturnEintr]

  /**
   * `do_raceafter_read`: `sigsetjmp`, `jump_is_safe = 1`, the flag test,
   * `read`, and `jump_is_safe = 0` on both return paths.
   */
  const RaceafterCode: seq<Instr> :=
    [SetJmp, SetSafe(true), LoadNoted, BranchIfFlag(7), KernelCall, SetSafe(false), ReturnResult, SetSafe(false), ReturnEintr]

  /** The check-then-call pattern with a handler that only counts. */
  function RacebeforeProgram(): (p: Program)
    ensures !Action(p.handler).restart
    ensures forall a: nat :: At(p.code, a) == KernelCall <==> a == 2
    ensures At(p.code, 0) == LoadNoted && At(p.code, 1).BranchIfFlag? && At(p.code, At(p.code, 1).target) == ReturnEintr
  {
    Program(Listing(RacebeforeCode), NoteSignal)
  }

  /** The jump pattern with the handler of the `siglongjmp` idiom. */
  function RaceafterProgram(): (p: Program)
    ensures !Action(p.handler).restart
    ensures forall a: nat :: At(p.code, a) == KernelCall <==> a == 4
    ensures forall a: nat :: At(p.code, a + 1) in {ReturnResult, ReturnEintr} ==> At(p.code, a) == SetSafe(false)
    ensures At(p.code, 0) == SetJmp && At(p.code, 1) == SetSafe(true) && At(p.code, 2) == LoadNoted
    ensures At(p.code, 3).BranchIfFlag? && At(p.code, At(p.code, 3).target + 1) == ReturnEintr
  {
    Program(Listing(RaceafterCode), LongjmpHandler)
  }

  function RacebeforeRun(ready: bool, k: nat, fuel: nat): State {
    Run(RacebeforeProgram(), Start(RacebeforeProgram(), None, ready), Pending(k), fuel)
  }

  function RaceafterRun(ready: bool, k: nat, fuel: nat): State {
    Run(RaceafterProgram(), Start(RaceafterProgram(), None, ready), Pending(k), fuel)
  }

  /** The racebefore thread after `j <= 2` instructions, no signal yet: the flag read was zero and the branch fell through. */
  function RacebeforeAt(ready: bool, j: nat): State {
    State(j, None, false, 0, 0, false, 0, 0, ready, false, false, None)
  }

  /** The raceafter thread after `j <= 6` instructions, no signal yet (the byte is read at instruction 4). */
  function RaceafterAt(ready: bool, j: nat): State {
    State(j, None, false, 0, 0, 2 <= j <= 5, 0, if j >= 5 then 1 else 0, ready && j < 5, j >= 5, false, None)
  }

  lemma {:induction false} RunRacebeforePrefix(ready: bool, s: Sig, j: nat, fuel: nat)
    requires j <= 2 && (s.Pending? ==> j <= s.after) && j <= fuel
    ensures Run(RacebeforeProgram(), Start(RacebeforeProgram(), None, ready), s, fuel)
         == Run(RacebeforeProgram(), RacebeforeAt(ready, j), Z.Advance(s, j), fuel - j)
  {
    if j > 0 {
      RunRacebeforePrefix(ready, s, j - 1, fuel);
      assert Exec(Listing(RacebeforeCode), RacebeforeAt(ready, j - 1)) == RacebeforeAt(ready, j);
      assert Tick(Z.Advance(s, j - 1)) == Z.Advance(s, j);
      RunExec(RacebeforeProgram(), RacebeforeAt(ready, j - 1), Z.Advance(s, j - 1), fuel - (j - 1));
    }
  }

  lemma StepRaceafter(ready: bool, j: nat)
    requires 0 < j <= 6 && (j >= 5 ==> ready)
    ensures Exec(Listing(RaceafterCode), RaceafterAt(ready, j - 1)) == RaceafterAt(ready, j)
  {
    var c := Listing(RaceafterCode);
    if j == 1 {
      assert At(c, 0) == SetJmp;
    } else if j == 2 {
      assert At(c, 1) == SetSafe(true);
    } else if j == 3 {
      assert At(c, 2) == LoadNoted;
    } else if j == 4 {
      assert At(c, 3) == BranchIfFlag(7);
    } else if j == 5 {
      assert At(c, 4) == KernelCall;
    } else {
      assert At(c, 5) == SetSafe(false);
    }
  }

  lemma {:induction false} RunRaceafterPrefix(ready: bool, s: Sig, j: nat, fuel: nat)
    requires j <= 6 && (j >= 5 ==> ready) && (s.Pending? ==> j <= s.after) && j <= fuel
    ensures Run(RaceafterProgram(), Start(RaceafterProgram(), None, ready), s, fuel)
         == Run(RaceafterProgram(), RaceafterAt(ready, j), Z.Advance(s, j), fuel - j)
  {
    if j > 0 {
      RunRaceafterPrefix(ready, s, j - 1, fuel);
      StepRaceafter(ready, j);
      assert Tick(Z.Advance(s, j - 1)) == Z.Advance(s, j);
      assert At(Listing(RaceafterCode), j - 1) != KernelCall || ready;
      RunExec(RaceafterProgram(), RaceafterAt(ready, j - 1), Z.Advance(s, j - 1), fuel - (j - 1));
    }
  }

  /** The racebefore thread reaches instruction `k <= 2` just as the signal is due. */
  lemma RacebeforeReaches(k: nat, fuel: nat)
    requires k <= 2 && k <= fuel
    ensures RacebeforeRun(false, k, fuel) == Run(RacebeforeProgram(), RacebeforeAt(false, k), Pending(0), fuel - k)
  {
    RunRacebeforePrefix(false, Pending(k), k, fuel);
    assert Z.Advance(Pending(k), k) == Pending(0);
  }

  /** The raceafter thread reaches instruction `k` just as the signal is due. */
  lemma RaceafterReaches(ready: bool, k: nat, fuel: nat)
    requires k <= 6 && (k >= 5 ==> ready) && k <= fuel
    ensures RaceafterRun(ready, k, fuel) == Run(RaceafterProgram(), RaceafterAt(ready, k), Pending(0), fuel - k)
  {
    RunRaceafterPrefix(ready, Pending(k), k, fuel);
    assert Z.Advance(Pending(k), k) == Pending(0);
  }

  /**
   * Once the checker's flag is set, the raceafter thread just after the
   * `sigsetjmp` returns `INTERRUPTED` through the flag test, clearing
   * `jump_is_safe`, without touching the pipe.
   */
  lemma RaceafterNotedAtFlag(m: State, fuel: nat)
    requires m.exit.None? && m.pc == 1 && m.noted != 0 && fuel >= 5
    ensures var r := Run(RaceafterProgram(), m, Quiet, fuel);
      r.exit == Some(Bailed) && r.consumed == m.consumed && r.slept == m.slept && !r.jumpIsSafe
  {
    var p := RaceafterProgram();
    var c := p.code;
    assert At(c, 1) == SetSafe(true) && At(c, 2) == LoadNoted && At(c, 3) == BranchIfFlag(7);
    assert At(c, 7) == SetSafe(false) && At(c, 8) == ReturnEintr;
    var m2 := m.(pc := 2, jumpIsSafe := true);
    var m3 := m2.(pc := 3, flagReg := m.noted);
    var m4 := m3.(pc := 7);
    var m5 := m4.(pc := 8, jumpIsSafe := false);
    assert Exec(c, m) == m2;
    assert Exec(c, m2) == m3;
    assert Exec(c, m3) == m4;
    assert Exec(c, m4) == m5;
    RunExec(p, m, Quiet, fuel);
    RunExec(p, m2, Quiet, fuel - 1);
    RunExec(p, m3, Quiet, fuel - 2);
    RunExec(p, m4, Quiet, fuel - 3);
    RunExec(p, m5, Quiet, fuel - 4);
  }

  /** The same from the `sigsetjmp` itself. */
  lemma RaceafterNoted(m: State, fuel: nat)
    requires m.exit.None? && m.pc <= 1 && m.noted != 0 && fuel >= 6 - m.pc
    ensures var r := Run(RaceafterProgram(), m, Quiet, fuel);
      r.exit == Some(Bailed) && r.consumed == m.consumed && r.slept == m.slept && !r.jumpIsSafe
  {
    var p := RaceafterProgram();
    if m.pc == 0 {
      assert At(p.code, 0) == SetJmp;
      var m1 := m.(pc := 1, env := 0);
      assert Exec(p.code, m) == m1;
      RunExec(p, m, Quiet, fuel);
      RaceafterNotedAtFlag(m1, fuel - 1);
    } else {
      RaceafterNotedAtFlag(m, fuel);
    }
  }

  /** A signal before the flag read: the flag test returns `INTERRUPTED`. */
  lemma RacebeforeSignalFirst(fuel: nat)
    requires fuel >= 3
    ensures var r := RacebeforeRun(false, 0, fuel); r.exit == Some(Bailed) && !r.slept
  {
    var p := RacebeforeProgram();
    var c := p.code;
    assert At(c, 0) == LoadNoted && At(c, 1) == BranchIfFlag(4) && At(c, 4) == ReturnEintr;
    var m := Start(p, None, false);
    RunDeliver(p, m, fuel);
    var n := m.(noted := 1);
    assert Deliver(p.handler, m) == n;
    var n1 := n.(pc := 1, flagReg := 1);
    var n2 := n1.(pc := 4);
    assert Exec(c, n) == n1;
    assert Exec(c, n1) == n2;
    RunExec(p, n, Quiet, fuel);
    RunExec(p, n1, Quiet, fuel - 1);
    RunExec(p, n2, Quiet, fuel - 2);
  }

  /** A signal between the flag read and the kernel entry: the flag is not looked at again, and `read` sleeps. */
  lemma RacebeforeSignalBetween(k: nat, fuel: nat)
    requires 1 <= k <= 2 && fuel >= 4
    ensures var r := RacebeforeRun(false, k, fuel); r.exit == Some(Finished(1)) && r.slept
  {
    RacebeforeReaches(k, fuel);
    RacebeforeDelivered(RacebeforeAt(false, k), fuel - k);
  }

  /** The signal handled after the flag read was zero: the handler only counts it. */
  lemma RacebeforeDelivered(m: State, fuel: nat)
    requires 1 <= m.pc <= 2 && m.flagReg == 0 && m.exit.None? && !m.ready && fuel >= 4 - m.pc
    ensures var r := Run(RacebeforeProgram(), m, Pending(0), fuel); r.exit == Some(Finished(1)) && r.slept
  {
    var p := RacebeforeProgram();
    RunDeliver(p, m, fuel);
    var n := m.(noted := m.noted + 1);
    assert Deliver(p.handler, m) == n;
    if m.pc == 1 {
      assert At(p.code, 1) == BranchIfFlag(4);
      assert Exec(p.code, n) == n.(pc := 2);
      RunExec(p, n, Quiet, fuel);
      RacebeforeSleeps(n.(pc := 2), fuel - 1);
    } else {
      RacebeforeSleeps(n, fuel);
    }
  }

  /** At the kernel entry with no signal to come, an empty pipe makes `read` sleep for the nudge. */
  lemma RacebeforeSleeps(n: State, fuel: nat)
    requires n.pc == 2 && n.exit.None? && !n.ready && fuel >= 2
    ensures var r := Run(RacebeforeProgram(), n, Quiet, fuel); r.exit == Some(Finished(1)) && r.slept
  {
    var p := RacebeforeProgram();
    assert At(p.code, 2) == KernelCall && At(p.code, 3) == ReturnResult;
    var n3 := n.(pc := 3, consumed := true, rv := 1, slept := true);
    assert Exec(p.code, n) == n3;
    RunExec(p, n, Quiet, fuel);
    RunExec(p, n3, Quiet, fuel - 1);
  }

  /** A signal that finds `read` blocked: without `SA_RESTART` it returns `-1` with `EINTR`. */
  lemma RacebeforeSignalBlocked(k: nat, fuel: nat)
    requires k >= 3 && fuel >= 3
    ensures var r := RacebeforeRun(false, k, fuel); r.exit == Some(Finished(-D.EINTR)) && !r.slept
  {
    var p := RacebeforeProgram();
    assert At(p.code, 2) == KernelCall && At(p.code, 3) == ReturnResult;
    RunRacebeforePrefix(false, Pending(k), 2, fuel);
    var m := RacebeforeAt(false, 2);
    RunInterrupt(p, m, Pending(k - 2), fuel - 2);
    var q := m.(pc := 3, rv := -D.EINTR, noted := 1);
    assert Interrupt(p.handler, m) == q;
    RunExec(p, q, Quiet, fuel - 2);
  }

  /** With the pipe empty, a signal at instruction 1 or 2 is ignored, at any other instruction it interrupts. */
  lemma RacebeforeSweep(k: nat, fuel: nat)
    requires fuel >= 4
    ensures var r := RacebeforeRun(false, k, fuel);
      && r.exit.Some?
      && (r.slept <==> 1 <= k <= 2)
      && RacebeforeVerdict(r.exit.value) == (if 1 <= k <= 2 then Normal else Interrupted)
  {
    if k == 0 {
      RacebeforeSignalFirst(fuel);
    } else if k <= 2 {
      RacebeforeSignalBetween(k, fuel);
    } else {
      RacebeforeSignalBlocked(k, fuel);
    }
  }

  /** The racebefore verdict: some offset ignores the signal (the thread sleeps for the nudge). */
  lemma RacebeforeIgnoresSignal(fuel: nat)
    requires fuel >= 4
    ensures var r := RacebeforeRun(false, 1, fuel); r.slept && r.exit.Some? && RacebeforeVerdict(r.exit.value) == Normal
  {
    RacebeforeSweep(1, fuel);
  }

  /**
   * With the byte available, a signal after `read` has returned but before
   * `jump_is_safe` is cleared (instruction 5) jumps back and reports
   * `INTERRUPTED`: exactly there the result is forgotten. The run always
   * returns with `jump_is_safe` clear and never sleeps, and only a signal
   * after the clear lets the result through.
   */
  lemma RaceafterSweep(k: nat, fuel: nat)
    requires fuel >= 11
    ensures var r := RaceafterRun(true, k, fuel);
      && r.exit.Some? && !r.jumpIsSafe && !r.slept
      && (Forgotten(r) <==> k == 5)
      && RaceafterVerdict(r.exit.value) == (if k <= 5 then Interrupted else Normal)
  {
    if k <= 5 {
      RaceafterSignalEarly(k, fuel);
    } else {
      RaceafterSignalLate(k, fuel);
    }
  }

  /** A signal before `jump_is_safe` is cleared: the flag test returns `INTERRUPTED`, having read the byte when `k == 5`. */
  lemma RaceafterSignalEarly(k: nat, fuel: nat)
    requires k <= 5 && fuel >= 11
    ensures var r := RaceafterRun(true, k, fuel);
      r.exit == Some(Bailed) && !r.jumpIsSafe && !r.slept && (r.consumed <==> k == 5)
  {
    var p := RaceafterProgram();
    RaceafterReaches(true, k, fuel);
    RaceafterDelivered(RaceafterAt(true, k), fuel - k);
  }

  /** A signal handled before `jump_is_safe` is cleared sends the thread back to the flag test, or finds it before it. */
  lemma RaceafterDelivered(m: State, fuel: nat)
    requires m.exit.None? && m.pc <= 5 && m.env == 0 && m.noted == 0 && (m.jumpIsSafe <==> 2 <= m.pc) && fuel >= 6
    ensures var r := Run(RaceafterProgram(), m, Pending(0), fuel);
      r.exit == Some(Bailed) && !r.jumpIsSafe && r.slept == m.slept && r.consumed == m.consumed
  {
    var p := RaceafterProgram();
    RunDeliver(p, m, fuel);
    var n := m.(noted := 1, pc := if 2 <= m.pc then 1 else m.pc);
    assert Deliver(p.handler, m) == n;
    RaceafterNoted(n, fuel);
  }

  /** A signal after `jump_is_safe` is cleared: the byte is returned. */
  lemma RaceafterSignalLate(k: nat, fuel: nat)
    requires k >= 6 && fuel >= 7
    ensures var r := RaceafterRun(true, k, fuel);
      r.exit == Some(Finished(1)) && !r.jumpIsSafe && !r.slept && r.consumed
  {
    var p := RaceafterProgram();
    RunRaceafterPrefix(true, Pending(k), 6, fuel);
    var m := RaceafterAt(true, 6);
    assert At(p.code, 6) == ReturnResult;
    if k == 6 {
      RunDeliver(p, m, fuel - 6);
      assert Deliver(p.handler, m) == m.(noted := 1);
      RunExec(p, m.(noted := 1), Quiet, fuel - 6);
    } else {
      RunExec(p, m, Pending(k - 6), fuel - 6);
    }
  }

  /** The raceafter verdict: some offset forgets the completed result. */
  lemma RaceafterForgetsResult(fuel: nat)
    requires fuel >= 11
    ensures Forgotten(RaceafterRun(true, 5, fuel))
  {
    RaceafterSweep(5, fuel);
  }

  /** With the pipe empty, every signal interrupts the jump pattern: nothing is consumed, nothing is lost. */
  lemma RaceafterEmptyPipe(k: nat, fuel: nat)
    requires fuel >= 11
    ensures var r := RaceafterRun(false, k, fuel);
      r.exit == Some(Bailed) && !r.consumed && !r.jumpIsSafe && !r.slept
  {
    if k <= 4 {
      RaceafterReaches(false, k, fuel);
      RaceafterDelivered(RaceafterAt(false, k), fuel - k);
    } else {
      RaceafterEmptyBlocked(k, fuel);
    }
  }

  /** A signal that finds the jump pattern's `read` blocked: the handler jumps back to the flag test. */
  lemma RaceafterEmptyBlocked(k: nat, fuel: nat)
    requires k >= 5 && fuel >= 10
    ensures var r := RaceafterRun(false, k, fuel);
      r.exit == Some(Bailed) && !r.consumed && !r.jumpIsSafe && !r.slept
  {
    var p := RaceafterProgram();
    RunRaceafterPrefix(false, Pending(k), 4, fuel);
    var m := RaceafterAt(false, 4);
    assert At(p.code, 4) == KernelCall;
    RunInterrupt(p, m, Pending(k - 4), fuel - 4);
    var q := m.(pc := 1, rv := -D.EINTR, noted := 1);
    assert Interrupt(p.handler, m) == q;
    RaceafterNoted(q, fuel - 4);
  }

  /**
   * sigsafe's wrapper, for a registered thread with a clear flag: the
   * checker never sees `WEIRD`, a sleep after the signal or a lost result;
   * it sees `INTERRUPTED` exactly when the signal comes no later than the
   * kernel entry or finds the call blocked, so over the offsets the
   * `INTERRUPTED` outcomes form an initial section followed by `NORMAL` ones.
   */
  lemma SigsafeReadSucceeds(l: Layout, t: seq<Syscall>, d: D.Tsd, ready: bool, k: nat, fuel: nat)
    requires Shaped(l) && Agrees(t, l) && d.signalReceived == 0 && fuel >= Z.Budget(l)
    ensures var r := Z.SigsafeRun(l, t, Some(d), ready, k, fuel);
      && r.exit.Some? && !r.slept && !Forgotten(r)
      && SigsafeVerdict(r.exit.value) != Weird
      && (SigsafeVerdict(r.exit.value) == Interrupted <==> k <= l.maxjmp - l.entry || !ready)
  {
    Z.SigsafeReadZones(l, t, d, ready, k, fuel);
  }

  /** The pipe of the read tests. */
  class Pipe {
    var buffered: seq<bv8>

    constructor()
      ensures buffered == []
    {
      buffered := [];
    }

    /** A `read` of one byte would not block. */
    predicate Readable()
      reads this
    {
      |buffered| > 0
    }

    /** `nudge_read`: the event the blocked read waits for, one byte written to the pipe. */
    method NudgeRead()
      modifies this
      ensures buffered == old(buffered) + [26]
      ensures Readable()
    {
      buffered := buffered + [26];
    }
  }
}
