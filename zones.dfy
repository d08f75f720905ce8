/**
 * What a sigsafe wrapper does when one signal arrives, at every point of
 * the wrapper. The wrapper's instructions fall into three zones: before the
 * flag read (`minjmp`), the jump region `[minjmp, maxjmp]`, and after the
 * kernel entry. A signal in the first two zones makes the call return
 * `-EINTR` without entering the kernel; once the kernel has been entered the
 * call either completes with its result or, when blocked, is interrupted and
 * returns `-EINTR`. The call never sleeps after the signal and never loses a
 * result.
 */
module Zones {
  import opened Wrappers
  import opened SyscallTable
  import opened Registry
  import opened Machine
  import D = Dispatcher
  import T = Template

  function SigsafeProgram(l: Layout, t: seq<Syscall>): Program {
    Program(Laid(l), SigsafeHandler(t))
  }

  /** A thread with record `d` calls the wrapper; the pipe holds a byte if `ready`; the signal comes after `k` instructions. */
  function SigsafeRun(l: Layout, t: seq<Syscall>, d: Option<D.Tsd>, ready: bool, k: nat, fuel: nat): State {
    Run(SigsafeProgram(l, t), Start(SigsafeProgram(l, t), d, ready), Pending(k), fuel)
  }

  /** Enough instructions for the longest path through a trampoline. */
  function Budget(l: Layout): nat
    requires Shaped(l)
  {
    l.ret - l.entry + 1
  }

  /** The signal `s` after `j` more instructions. */
  function Advance(s: Sig, j: nat): Sig
    requires s.Pending? ==> j <= s.after
  {
    if s.Pending? then Pending(s.after - j) else Quiet
  }

  /**
   * The state after `j` instructions of a registered thread, before the
   * signal and before the path bends: the PC has moved `j` instructions
   * from the entry, the record pointer is loaded after the first, the flag
   * after the one at `minjmp`, and the byte is read after the one at
   * `maxjmp`.
   */
  function Prefix(l: Layout, d: D.Tsd, ready: bool, j: nat): State
    requires Shaped(l)
  {
    var x := l.maxjmp - l.entry;
    State(l.entry + j, Some(d), j >= 1, if j > l.minjmp - l.entry then d.signalReceived else 0, 0, false, 0,
          if j > x then 1 else 0, ready && j <= x, j > x, false, None)
  }

  /** How long the path runs in a straight line: to `ret` with a clear flag, to the flag test's branch otherwise. */
  function Straight(l: Layout, d: D.Tsd): nat
    requires Shaped(l)
  {
    if d.signalReceived == 0 then l.ret - l.entry else l.minjmp + 1 - l.entry
  }

  lemma StepPrefix(l: Layout, d: D.Tsd, ready: bool, j: nat)
    requires Shaped(l) && 0 < j <= Straight(l, d)
    requires j > l.maxjmp - l.entry ==> ready
    ensures Exec(Laid(l), Prefix(l, d, ready, j - 1)) == Prefix(l, d, ready, j)
  {
    var a := l.entry + j - 1;
    if a == l.minjmp + 1 {
      assert d.signalReceived == 0;
    }
  }

  lemma {:induction false} RunPrefix(l: Layout, t: seq<Syscall>, d: D.Tsd, ready: bool, s: Sig, j: nat, fuel: nat)
    requires Shaped(l) && j <= Straight(l, d) && (s.Pending? ==> j <= s.after) && j <= fuel
    requires j > l.maxjmp - l.entry ==> ready
    ensures Run(SigsafeProgram(l, t), Start(SigsafeProgram(l, t), Some(d), ready), s, fuel)
         == Run(SigsafeProgram(l, t), Prefix(l, d, ready, j), Advance(s, j), fuel - j)
  {
    if j == 0 {
      assert Start(SigsafeProgram(l, t), Some(d), ready) == Prefix(l, d, ready, 0);
    } else {
      RunPrefix(l, t, d, ready, s, j - 1, fuel);
      StepPrefix(l, d, ready, j);
      var m := Prefix(l, d, ready, j - 1);
      assert Tick(Advance(s, j - 1)) == Advance(s, j);
      RunExec(SigsafeProgram(l, t), m, Advance(s, j - 1), fuel - (j - 1));
    }
  }

  /** Before `minjmp` a registered thread runs straight on (the record test falls through). */
  lemma StepBefore(l: Layout, m: State)
    requires Shaped(l) && l.entry <= m.pc < l.minjmp && (m.pc == l.entry + 1 ==> m.tsdReg)
    ensures Exec(Laid(l), m) == m.(pc := m.pc + 1, tsdReg := if m.pc == l.entry then m.tsd.Some? else m.tsdReg)
  {
  }

  /** At `minjmp`, a set flag sends the thread to `jmpto` in two instructions. */
  lemma StepFlagTest(l: Layout, m: State)
    requires Shaped(l) && m.pc == l.minjmp && m.tsd.Some? && m.tsd.value.signalReceived != 0
    ensures Exec(Laid(l), Exec(Laid(l), m)) == m.(pc := l.jmpto, flagReg := m.tsd.value.signalReceived)
  {
  }

  /** From the entry up to `minjmp`, with the flag set and no signal due, the wrapper returns `-EINTR`. */
  lemma {:induction false} BailsFrom(l: Layout, t: seq<Syscall>, m: State, fuel: nat)
    requires Shaped(l) && m.exit.None?
    requires m.tsd.Some? && m.tsd.value.signalReceived != 0
    requires l.entry <= m.pc <= l.minjmp && (m.pc == l.entry + 1 ==> m.tsdReg)
    requires fuel >= l.minjmp + 3 - m.pc
    ensures var r := Run(SigsafeProgram(l, t), m, Quiet, fuel);
      r.exit == Some(Bailed) && r.consumed == m.consumed && r.slept == m.slept
    decreases l.minjmp - m.pc
  {
    if m.pc < l.minjmp {
      var p := SigsafeProgram(l, t);
      RunExec(p, m, Quiet, fuel);
      StepBefore(l, m);
      BailsFrom(l, t, m.(pc := m.pc + 1, tsdReg := if m.pc == l.entry then m.tsd.Some? else m.tsdReg), fuel - 1);
    } else {
      BailsAtFlagTest(l, t, m, fuel);
    }
  }

  /** The last three instructions of the early-return path: test, branch, return. */
  lemma BailsAtFlagTest(l: Layout, t: seq<Syscall>, m: State, fuel: nat)
    requires Shaped(l) && m.exit.None? && m.pc == l.minjmp
    requires m.tsd.Some? && m.tsd.value.signalReceived != 0 && fuel >= 3
    ensures var r := Run(SigsafeProgram(l, t), m, Quiet, fuel);
      r.exit == Some(Bailed) && r.consumed == m.consumed && r.slept == m.slept
  {
    var p := SigsafeProgram(l, t);
    var n1 := Exec(Laid(l), m);
    var n2 := m.(pc := l.jmpto, flagReg := m.tsd.value.signalReceived);
    StepFlagTest(l, m);
    assert Exec(Laid(l), n1) == n2;
    RunExec(p, m, Quiet, fuel);
    RunExec(p, n1, Quiet, fuel - 1);
    RunExec(p, n2, Quiet, fuel - 2);
  }

  /** At `jmpto` the wrapper returns `-EINTR`, whether or not the signal arrives there. */
  lemma BailsAtJmpto(l: Layout, t: seq<Syscall>, m: State, s: Sig, fuel: nat)
    requires Shaped(l) && Agrees(t, l) && m.exit.None? && m.pc == l.jmpto && m.tsd.Some? && fuel >= 1
    ensures var r := Run(SigsafeProgram(l, t), m, s, fuel);
      r.exit == Some(Bailed) && r.consumed == m.consumed && r.slept == m.slept
  {
    var p := SigsafeProgram(l, t);
    if s == Pending(0) {
      assert Within(l, l.jmpto);
      RunDeliver(p, m, fuel);
      var n := Deliver(p.handler, m);
      assert n.pc == l.jmpto;
      RunExec(p, n, Quiet, fuel);
    } else {
      RunExec(p, m, s, fuel);
    }
  }

  /** After the kernel entry, with no signal due, the wrapper returns the kernel's result. */
  lemma {:induction false} FinishesFrom(l: Layout, t: seq<Syscall>, m: State, fuel: nat)
    requires Shaped(l) && m.exit.None? && l.maxjmp < m.pc <= l.ret && fuel >= l.ret - m.pc + 1
    ensures var r := Run(SigsafeProgram(l, t), m, Quiet, fuel);
      r.exit == Some(Finished(m.rv)) && r.consumed == m.consumed && r.slept == m.slept
    decreases l.ret - m.pc
  {
    var p := SigsafeProgram(l, t);
    RunExec(p, m, Quiet, fuel);
    if m.pc < l.ret {
      FinishesFrom(l, t, Exec(Laid(l), m), fuel - 1);
    }
  }

  /** On a trampoline the table agrees with, the handler sets the flag and redirects exactly the region to `jmpto`. */
  lemma DeliverRegistered(l: Layout, t: seq<Syscall>, m: State)
    requires Shaped(l) && Agrees(t, l) && m.tsd.Some? && Within(l, m.pc)
    ensures Deliver(SigsafeHandler(t), m)
         == m.(tsd := Some(m.tsd.value.(signalReceived := 1)), pc := if l.minjmp <= m.pc <= l.maxjmp then l.jmpto else m.pc)
  {
  }

  /** The signal arrives before the normal path has returned (and, with an empty pipe, before the kernel entry). */
  lemma ZoneSignalFirst(l: Layout, t: seq<Syscall>, d: D.Tsd, ready: bool, k: nat, fuel: nat)
    requires Shaped(l) && Agrees(t, l) && d.signalReceived == 0 && fuel >= Budget(l)
    requires k <= l.maxjmp - l.entry || (k <= l.ret - l.entry && ready)
    ensures var r := SigsafeRun(l, t, Some(d), ready, k, fuel);
      && !r.slept
      && (k <= l.maxjmp - l.entry ==> r.exit == Some(Bailed) && !r.consumed)
      && (k > l.maxjmp - l.entry ==> r.exit == Some(Finished(1)) && r.consumed)
  {
    var p := SigsafeProgram(l, t);
    RunPrefix(l, t, d, ready, Pending(k), k, fuel);
    var m := Prefix(l, d, ready, k);
    RunDeliver(p, m, fuel - k);
    DeliverRegistered(l, t, m);
    var n := Deliver(p.handler, m);
    if m.pc < l.minjmp {
      BailsFrom(l, t, n, fuel - k);
    } else if m.pc <= l.maxjmp {
      BailsAtJmpto(l, t, n, Quiet, fuel - k);
    } else {
      FinishesFrom(l, t, n, fuel - k);
    }
  }

  /** The byte is available and the signal comes only after the wrapper has returned. */
  lemma ZoneSignalLate(l: Layout, t: seq<Syscall>, d: D.Tsd, k: nat, fuel: nat)
    requires Shaped(l) && d.signalReceived == 0 && fuel >= Budget(l) && k > l.ret - l.entry
    ensures var r := SigsafeRun(l, t, Some(d), true, k, fuel);
      !r.slept && r.exit == Some(Finished(1)) && r.consumed
  {
    var p := SigsafeProgram(l, t);
    var rr := l.ret - l.entry;
    RunPrefix(l, t, d, true, Pending(k), rr, fuel);
    RunExec(p, Prefix(l, d, true, rr), Pending(k - rr), fuel - rr);
  }

  /** The pipe is empty and the signal finds the call blocked in the kernel. */
  lemma ZoneSignalBlocked(l: Layout, t: seq<Syscall>, d: D.Tsd, k: nat, fuel: nat)
    requires Shaped(l) && Agrees(t, l) && d.signalReceived == 0 && fuel >= Budget(l) && k > l.maxjmp - l.entry
    ensures var r := SigsafeRun(l, t, Some(d), false, k, fuel);
      !r.slept && r.exit == Some(Bailed) && !r.consumed
  {
    var p := SigsafeProgram(l, t);
    var x := l.maxjmp - l.entry;
    RunPrefix(l, t, d, false, Pending(k), x, fuel);
    var m := Prefix(l, d, false, x);
    RunInterrupt(p, m, Pending(k - x), fuel - x);
    DeliverRegistered(l, t, m);
    BailsAtJmpto(l, t, Interrupt(p.handler, m), Quiet, fuel - x);
  }

  /**
   * A registered thread with a clear flag, on a trampoline the table agrees
   * with: the call returns `-EINTR` without consuming the byte exactly when
   * the signal arrives no later than the kernel entry, or the pipe is empty
   * (the blocked call is interrupted); otherwise it returns the byte count
   * 1. The thread never sleeps after the signal.
   */
  lemma SigsafeReadZones(l: Layout, t: seq<Syscall>, d: D.Tsd, ready: bool, k: nat, fuel: nat)
    requires Shaped(l) && Agrees(t, l) && d.signalReceived == 0 && fuel >= Budget(l)
    ensures var r := SigsafeRun(l, t, Some(d), ready, k, fuel);
      && !r.slept
      && (r.exit == Some(Bailed) <==> k <= l.maxjmp - l.entry || !ready)
      && (r.exit != Some(Bailed) ==> r.exit == Some(Finished(1)))
      && (r.consumed <==> r.exit != Some(Bailed))
  {
    if k <= l.maxjmp - l.entry || (k <= l.ret - l.entry && ready) {
      ZoneSignalFirst(l, t, d, ready, k, fuel);
    } else if ready {
      ZoneSignalLate(l, t, d, k, fuel);
    } else {
      ZoneSignalBlocked(l, t, d, k, fuel);
    }
  }

  /**
   * The race checker's picture of a correct wrapper, with the byte
   * available: a signal at the very first instruction interrupts the call,
   * one after the wrapper's last instruction does not, and the interrupted
   * offsets form an initial section (a later signal never interrupts when an
   * earlier one would not).
   */
  lemma SigsafeReadSweep(l: Layout, t: seq<Syscall>, d: D.Tsd, fuel: nat)
    requires Shaped(l) && Agrees(t, l) && d.signalReceived == 0 && fuel >= Budget(l)
    ensures SigsafeRun(l, t, Some(d), true, 0, fuel).exit == Some(Bailed)
    ensures SigsafeRun(l, t, Some(d), true, Budget(l), fuel).exit == Some(Finished(1))
    ensures forall k1: nat, k2: nat :: k1 <= k2 && SigsafeRun(l, t, Some(d), true, k2, fuel).exit == Some(Bailed) ==>
      SigsafeRun(l, t, Some(d), true, k1, fuel).exit == Some(Bailed)
  {
    SigsafeReadZones(l, t, d, true, 0, fuel);
    SigsafeReadZones(l, t, d, true, Budget(l), fuel);
    forall k1: nat, k2: nat | k1 <= k2 && SigsafeRun(l, t, Some(d), true, k2, fuel).exit == Some(Bailed)
      ensures SigsafeRun(l, t, Some(d), true, k1, fuel).exit == Some(Bailed)
    {
      SigsafeReadZones(l, t, d, true, k1, fuel);
      SigsafeReadZones(l, t, d, true, k2, fuel);
    }
  }

  /** A thread whose flag is already set never enters the kernel, wherever the signal comes. */
  lemma FlagSetNeverIssues(l: Layout, t: seq<Syscall>, d: D.Tsd, ready: bool, k: nat, fuel: nat)
    requires Shaped(l) && Agrees(t, l) && d.signalReceived != 0 && fuel >= Budget(l)
    ensures var r := SigsafeRun(l, t, Some(d), ready, k, fuel);
      r.exit == Some(Bailed) && !r.consumed && !r.slept
  {
    var p := SigsafeProgram(l, t);
    var b := l.minjmp + 1 - l.entry;
    if k <= b {
      RunPrefix(l, t, d, ready, Pending(k), k, fuel);
      var m := Prefix(l, d, ready, k);
      RunDeliver(p, m, fuel - k);
      DeliverRegistered(l, t, m);
      var n := Deliver(p.handler, m);
      if m.pc < l.minjmp {
        BailsFrom(l, t, n, fuel - k);
      } else {
        BailsAtJmpto(l, t, n, Quiet, fuel - k);
      }
    } else {
      RunPrefix(l, t, d, ready, Pending(k), b, fuel);
      var m := Prefix(l, d, ready, b);
      RunExec(p, m, Pending(k - b), fuel - b);
      var n := Exec(Laid(l), m);
      assert n.pc == l.jmpto;
      BailsAtJmpto(l, t, n, Pending(k - b - 1), fuel - b - 1);
    }
  }

  /**
   * On any code, a thread without a record runs as if no signal came:
   * sigsafe's handler leaves it alone, and a call blocked in the kernel is
   * restarted.
   */
  lemma {:induction false} UnregisteredInsensitive(c: Code, t: seq<Syscall>, m: State, s: Sig, fuel: nat)
    requires m.tsd.None?
    ensures Run(Program(c, SigsafeHandler(t)), m, s, fuel) == Run(Program(c, SigsafeHandler(t)), m, Quiet, fuel)
    decreases fuel, if s.Pending? then 1 else 0
  {
    var p := Program(c, SigsafeHandler(t));
    if m.exit.Some? {
    } else if s == Pending(0) {
      RunDeliver(p, m, fuel);
      assert Deliver(p.handler, m) == m;
    } else if s.Pending? && At(c, m.pc) == KernelCall && !m.ready {
      RunInterrupt(p, m, s, fuel);
      assert Interrupt(p.handler, m) == m;
    } else if fuel > 0 {
      RunExec(p, m, s, fuel);
      RunExec(p, m, Quiet, fuel);
      ExecKeepsTsd(c, m);
      UnregisteredInsensitive(c, t, Exec(c, m), Tick(s), fuel - 1);
    }
  }

  /** No instruction changes the thread's record. */
  lemma ExecKeepsTsd(c: Code, m: State)
    ensures Exec(c, m).tsd == m.tsd
  {
  }

  /** Without a signal and without a record the wrapper goes straight to the kernel. */
  lemma UnregisteredQuietRun(l: Layout, t: seq<Syscall>, ready: bool, fuel: nat)
    requires Shaped(l) && fuel >= Budget(l)
    ensures var r := Run(SigsafeProgram(l, t), Start(SigsafeProgram(l, t), None, ready), Quiet, fuel);
      r.exit == Some(Finished(1)) && r.consumed && (r.slept <==> !ready)
  {
    var p := SigsafeProgram(l, t);
    var m0 := Start(p, None, ready);
    var m1 := Exec(Laid(l), m0);
    var m2 := Exec(Laid(l), m1);
    assert m2.pc == l.maxjmp;
    var m3 := Exec(Laid(l), m2);
    RunExec(p, m0, Quiet, fuel);
    RunExec(p, m1, Quiet, fuel - 1);
    RunExec(p, m2, Quiet, fuel - 2);
    FinishesFrom(l, t, m3, fuel - 3);
  }

  /**
   * Signals to a thread that never installed a record are ignored: the call
   * always completes with the byte, sleeping for the nudge when the pipe was
   * empty.
   */
  lemma UnregisteredIgnoresSignals(l: Layout, t: seq<Syscall>, ready: bool, k: nat, fuel: nat)
    requires Shaped(l) && fuel >= Budget(l)
    ensures var r := SigsafeRun(l, t, None, ready, k, fuel);
      r.exit == Some(Finished(1)) && r.consumed && (r.slept <==> !ready)
  {
    var p := SigsafeProgram(l, t);
    UnregisteredInsensitive(Laid(l), t, Start(p, None, ready), Pending(k), fuel);
    UnregisteredQuietRun(l, t, ready, fuel);
  }

  /** The exit a template outcome corresponds to. */
  function AsExit(o: T.Outcome): Exit {
    match o
    case Issued(v) => Finished(v)
    case Early => Bailed
  }

  /**
   * Without a signal the trampoline does what src/template.c does: for any
   * record (or none), it returns early exactly when the template does, and
   * otherwise enters the kernel and returns its result.
   */
  lemma NoSignalMatchesTemplate(l: Layout, t: seq<Syscall>, d: Option<D.Tsd>, fuel: nat)
    requires Shaped(l) && fuel >= Budget(l)
    ensures var r := Run(SigsafeProgram(l, t), Start(SigsafeProgram(l, t), d, true), Quiet, fuel);
      && r.exit == Some(AsExit(T.SafeRead(d, 1)))
      && (r.consumed <==> T.SafeRead(d, 1).Issued?)
      && !r.slept
  {
    var p := SigsafeProgram(l, t);
    if d.None? {
      UnregisteredQuietRun(l, t, true, fuel);
    } else if d.value.signalReceived == 0 {
      var rr := l.ret - l.entry;
      RunPrefix(l, t, d.value, true, Quiet, rr, fuel);
      RunExec(p, Prefix(l, d.value, true, rr), Quiet, fuel - rr);
    } else {
      var b := l.minjmp + 1 - l.entry;
      RunPrefix(l, t, d.value, true, Quiet, b, fuel);
      var m := Prefix(l, d.value, true, b);
      var n := Exec(Laid(l), m);
      assert n.pc == l.jmpto;
      RunExec(p, m, Quiet, fuel - b);
      RunExec(p, n, Quiet, fuel - b - 1);
    }
  }

  /**
   * When the table does not redirect a trampoline's kernel-entry
   * instruction, a signal that finds the call blocked is lost: the call is
   * restarted and sleeps until the nudge.
   */
  lemma UnredirectedKernelEntrySleeps(l: Layout, t: seq<Syscall>, d: D.Tsd, k: nat, fuel: nat)
    requires Shaped(l) && d.signalReceived == 0 && Redirected(t, l.maxjmp, ByAddress) == l.maxjmp
    requires k > l.maxjmp - l.entry && fuel >= Budget(l)
    ensures var r := SigsafeRun(l, t, Some(d), false, k, fuel);
      r.slept && r.exit == Some(Finished(1))
  {
    var p := SigsafeProgram(l, t);
    var x := l.maxjmp - l.entry;
    RunPrefix(l, t, d, false, Pending(k), x, fuel);
    var m := Prefix(l, d, false, x);
    RunInterrupt(p, m, Pending(k - x), fuel - x);
    var n := Interrupt(p.handler, m);
    assert n.pc == l.maxjmp;
    RunExec(p, n, Quiet, fuel - x);
    FinishesFrom(l, t, Exec(Laid(l), n), fuel - x - 1);
  }

  /**
   * When the table sends a saved PC at or before the kernel entry to the
   * kernel-entry instruction itself, a signal there is lost: the handler
   * sets the flag, but the thread goes on into the kernel past the flag test
   * and sleeps until the nudge.
   */
  lemma RedirectedToKernelEntrySleeps(l: Layout, t: seq<Syscall>, d: D.Tsd, k: nat, fuel: nat)
    requires Shaped(l) && d.signalReceived == 0 && k <= l.maxjmp - l.entry
    requires Redirected(t, l.entry + k, ByAddress) == l.maxjmp && fuel >= Budget(l)
    ensures var r := SigsafeRun(l, t, Some(d), false, k, fuel);
      r.slept && r.exit == Some(Finished(1))
  {
    var p := SigsafeProgram(l, t);
    RunPrefix(l, t, d, false, Pending(k), k, fuel);
    var m := Prefix(l, d, false, k);
    assert Advance(Pending(k), k) == Pending(0);
    RunDeliver(p, m, fuel - k);
    var n := Deliver(p.handler, m);
    assert n.pc == l.maxjmp && !n.ready && n.exit.None?;
    RunExec(p, n, Quiet, fuel - k);
    var q := Exec(Laid(l), n);
    assert q.pc == l.maxjmp + 1 && q.slept && q.rv == 1;
    FinishesFrom(l, t, q, fuel - k - 1);
  }

  /**
   * With the literal table and the example placement, a signal that comes
   * while `kevent`'s thread is in its jump region `[610, 620]`, before the
   * kernel has been entered, is lost: the row sends the thread to the kernel
   * entry instead of `jmpto`, and it sleeps. With the intended table the
   * call returns `-EINTR`.
   */
  lemma SourceKeventLosesSignal(k: nat, fuel: nat)
    requires 10 <= k <= 20 && fuel >= 26
    ensures var r := SigsafeRun(ExampleSymbols.kevent, SourceTable(ExampleSymbols, ExampleConfig), Some(D.Tsd(0, 0, None)), false, k, fuel);
      r.slept && r.exit == Some(Finished(1))
    ensures SigsafeRun(ExampleSymbols.kevent, IntendedTable(ExampleSymbols, ExampleConfig), Some(D.Tsd(0, 0, None)), false, k, fuel).exit
         == Some(Bailed)
  {
    SourceKeventRedirectsIntoRegion(600 + k);
    RedirectedToKernelEntrySleeps(ExampleSymbols.kevent, SourceTable(ExampleSymbols, ExampleConfig), D.Tsd(0, 0, None), k, fuel);
    ExampleLayoutOk();
    IntendedAgrees(ExampleSymbols, ExampleConfig, 4);
    SigsafeReadZones(ExampleSymbols.kevent, IntendedTable(ExampleSymbols, ExampleConfig), D.Tsd(0, 0, None), false, k, fuel);
  }

  /**
   * With the literal table and the example placement, a signal that finds
   * `readv` blocked in the kernel is lost (its row's region is empty); with
   * the intended table the call returns `-EINTR`.
   */
  lemma SourceReadvLosesSignal(k: nat, fuel: nat)
    requires k > 20 && fuel >= 26
    ensures SigsafeRun(ExampleSymbols.readv, SourceTable(ExampleSymbols, ExampleConfig), Some(D.Tsd(0, 0, None)), false, k, fuel).slept
    ensures SigsafeRun(ExampleSymbols.readv, IntendedTable(ExampleSymbols, ExampleConfig), Some(D.Tsd(0, 0, None)), false, k, fuel).exit
         == Some(Bailed)
  {
    SourceReadvMissesItsSyscall();
    UnredirectedKernelEntrySleeps(ExampleSymbols.readv, SourceTable(ExampleSymbols, ExampleConfig), D.Tsd(0, 0, None), k, fuel);
    ExampleLayoutOk();
    IntendedAgrees(ExampleSymbols, ExampleConfig, 1);
    SigsafeReadZones(ExampleSymbols.readv, IntendedTable(ExampleSymbols, ExampleConfig), D.Tsd(0, 0, None), false, k, fuel);
  }
}
