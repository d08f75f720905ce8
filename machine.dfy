/**
 * A small instruction-level model of one thread running a system call
 * wrapper while one signal arrives, the setting the race checker of
 * tests/race_checker explores: the signal arrives after a chosen number of
 * instructions, or while the thread is blocked in the kernel, and a handler
 * runs. The system call is a one-byte `read` from a pipe; when the pipe is
 * empty the thread sleeps until the checker's nudge (`nudge_read`) writes a
 * byte.
 */
module Machine {
  import opened Wrappers
  import opened SyscallTable
  import opened Registry
  import D = Dispatcher

  datatype Instr =
    | Nop
    /** Fetch `pthread_getspecific(sigsafe_key)`. */
    | LoadTsd
    /** With no record, go straight to the system call. */
    | JumpIfNoTsd(target: nat)
    /** Read the record's `signal_received` (the `minjmp` instruction). */
    | LoadTsdFlag
    /** Read the race checker's own global `signal_received`. */
    | LoadNoted
    /** Taken when the value just read is non-zero. */
    | BranchIfFlag(target: nat)
    /** Enter the kernel (the `maxjmp` instruction). */
    | KernelCall
    /** Return what the kernel returned. */
    | ReturnResult
    /** Return without having entered the kernel. */
    | ReturnEintr
    /** `sigsetjmp(env, 1)`. */
    | SetJmp
    /** `jump_is_safe = safe`. */
    | SetSafe(safe: bool)

  /**
   * A sigsafe trampoline placed at a layout, or a plain listing starting at
   * address 0.
   */
  datatype Code = Laid(layout: Layout) | Listing(instrs: seq<Instr>)

  /**
   * The handler for the signal: sigsafe's `sighandler` over a table, the race
   * checker's `note_signal` (counts the signal), or the `siglongjmp` pattern
   * (counts the signal and jumps back when `jump_is_safe`).
   */
  datatype Handler = SigsafeHandler(table: seq<Syscall>) | NoteSignal | LongjmpHandler

  datatype Program = Program(code: Code, handler: Handler)

  /** The `sigaction` flags each handler is installed with. */
  function Action(h: Handler): D.SigAction {
    match h
    case SigsafeHandler(_) => D.SigsafeAction
    case _ => D.SigAction(false, false)
  }

  /**
   * The trampoline's code: the TSD load and test, the flag read at `minjmp`
   * and its branch to `jmpto`, the kernel entry at `maxjmp`, the normal
   * return at `ret` and the `-EINTR` return at `jmpto`; padding elsewhere.
   */
  function At(c: Code, a: nat): (i: Instr)
    ensures c.Laid? && Shaped(c.layout) ==>
      && (i == LoadTsdFlag <==> a == c.layout.minjmp)
      && (i == KernelCall <==> a == c.layout.maxjmp)
      && (i == ReturnEintr <==> a == c.layout.jmpto)
  {
    match c
    case Laid(l) =>
      if a == l.entry then LoadTsd
      else if a == l.entry + 1 then JumpIfNoTsd(l.maxjmp)
      else if a == l.minjmp then LoadTsdFlag
      else if a == l.minjmp + 1 then BranchIfFlag(l.jmpto)
      else if a == l.maxjmp then KernelCall
      else if a == l.ret then ReturnResult
      else if a == l.jmpto then ReturnEintr
      else Nop
    case Listing(s) => if a < |s| then s[a] else Nop
  }

  function EntryPoint(c: Code): nat {
    match c
    case Laid(l) => l.entry
    case Listing(_) => 0
  }

  /** The signal is still to come, after `after` more instructions, or has been handled. */
  datatype Sig = Pending(after: nat) | Quiet

  /** How the wrapper returned: without entering the kernel, or with the kernel's value. */
  datatype Exit = Bailed | Finished(value: int)

  /**
   * The thread: program counter, its sigsafe record, the registers the
   * wrappers use, the race checker's globals (`signal_received`,
   * `jump_is_safe`, the saved `env`), the kernel's return value, whether the
   * pipe holds a byte, whether a byte was consumed, whether the thread
   * slept in the kernel after the signal had been handled, and the exit once
   * the wrapper returns.
   */
  datatype State = State(
    pc: nat, tsd: Option<D.Tsd>, tsdReg: bool, flagReg: int, noted: int, jumpIsSafe: bool, env: nat,
    rv: int, ready: bool, consumed: bool, slept: bool, exit: Option<Exit>)

  /** One instruction, when no signal is due. A read of an empty pipe sleeps until the nudge. */
  function Exec(c: Code, m: State): State {
    var next := m.pc + 1;
    match At(c, m.pc)
    case Nop => m.(pc := next)
    case LoadTsd => m.(pc := next, tsdReg := m.tsd.Some?)
    case JumpIfNoTsd(t) => m.(pc := if m.tsdReg then next else t)
    case LoadTsdFlag => m.(pc := next, flagReg := if m.tsd.Some? then m.tsd.value.signalReceived else 0)
    case LoadNoted => m.(pc := next, flagReg := m.noted)
    case BranchIfFlag(t) => m.(pc := if m.flagReg != 0 then t else next)
    case KernelCall =>
      if m.ready then m.(pc := next, ready := false, consumed := true, rv := 1)
      else m.(pc := next, consumed := true, rv := 1, slept := true)
    case ReturnResult => m.(exit := Some(Finished(m.rv)))
    case ReturnEintr => m.(exit := Some(Bailed))
    case SetJmp => m.(pc := next, env := m.pc)
    case SetSafe(b) => m.(pc := next, jumpIsSafe := b)
  }

  /** The handler runs with `pc` as the saved user-space PC. */
  function Deliver(h: Handler, m: State): (r: State)
    ensures r.exit == m.exit && r.rv == m.rv && r.ready == m.ready && r.consumed == m.consumed && r.slept == m.slept
    ensures r.jumpIsSafe == m.jumpIsSafe && r.env == m.env && r.flagReg == m.flagReg && r.tsdReg == m.tsdReg
    ensures h.SigsafeHandler? ==> r.noted == m.noted && (r.tsd.Some? <==> m.tsd.Some?)
    ensures h.SigsafeHandler? && m.tsd.None? ==> r.pc == m.pc && r.tsd == m.tsd
    ensures h.SigsafeHandler? && m.tsd.Some? ==> r.tsd == Some(m.tsd.value.(signalReceived := 1))
    ensures !h.SigsafeHandler? ==> r.noted == m.noted + 1 && r.tsd == m.tsd
    ensures h.NoteSignal? ==> r.pc == m.pc
    ensures h.LongjmpHandler? ==> r.pc == if m.jumpIsSafe then m.env + 1 else m.pc
  {
    match h
    case SigsafeHandler(t) =>
      var (tsd, pc) := D.SighandlerEffect(m.tsd, t, m.pc);
      m.(tsd := tsd, pc := pc)
    case NoteSignal => m.(noted := m.noted + 1)
    case LongjmpHandler => m.(noted := m.noted + 1, pc := if m.jumpIsSafe then m.env + 1 else m.pc)
  }

  /**
   * The signal arrives while the thread is blocked in the kernel. With
   * `SA_RESTART` the kernel re-arms the call, so the handler sees the
   * kernel-entry instruction as the saved PC; without it the call returns
   * `-EINTR` and the handler sees the following instruction.
   */
  function Interrupt(h: Handler, m: State): (r: State)
    ensures h.SigsafeHandler? ==> r == Deliver(h, m)
    ensures !h.SigsafeHandler? ==> r.rv == -D.EINTR && r.noted == m.noted + 1 && r.consumed == m.consumed
    ensures h.NoteSignal? ==> r.pc == m.pc + 1
  {
    if Action(h).restart then Deliver(h, m)
    else Deliver(h, m.(pc := m.pc + 1, rv := -D.EINTR))
  }

  /** The signal one instruction later. */
  function Tick(s: Sig): Sig {
    if s.Pending? && s.after > 0 then Pending(s.after - 1) else s
  }

  /**
   * Runs until the wrapper returns or `fuel` instructions have been
   * executed, with signal `s` still to come.
   */
  function Run(p: Program, m: State, s: Sig, fuel: nat): State
    decreases fuel, if s.Pending? then 1 else 0
  {
    if m.exit.Some? then m
    else if s == Pending(0) then Run(p, Deliver(p.handler, m), Quiet, fuel)
    else if s.Pending? && At(p.code, m.pc) == KernelCall && !m.ready then Run(p, Interrupt(p.handler, m), Quiet, fuel)
    else if fuel == 0 then m
    else Run(p, Exec(p.code, m), Tick(s), fuel - 1)
  }

  /** A thread entering the wrapper. */
  function Start(p: Program, tsd: Option<D.Tsd>, ready: bool): State {
    State(EntryPoint(p.code), tsd, false, 0, 0, false, 0, 0, ready, false, false, None)
  }

  /** One executed instruction, when no signal is due and the wrapper has not returned. */
  lemma RunExec(p: Program, m: State, s: Sig, fuel: nat)
    requires m.exit.None? && s != Pending(0) && fuel > 0
    requires !(s.Pending? && At(p.code, m.pc) == KernelCall && !m.ready)
    ensures Run(p, m, s, fuel) == Run(p, Exec(p.code, m), Tick(s), fuel - 1)
  {
  }

  /** A signal that is due is handled before the next instruction. */
  lemma RunDeliver(p: Program, m: State, fuel: nat)
    requires m.exit.None?
    ensures Run(p, m, Pending(0), fuel) == Run(p, Deliver(p.handler, m), Quiet, fuel)
  {
  }

  /** A signal that finds the thread blocked in the kernel interrupts the call. */
  lemma RunInterrupt(p: Program, m: State, s: Sig, fuel: nat)
    requires m.exit.None? && s.Pending? && s.after > 0 && At(p.code, m.pc) == KernelCall && !m.ready
    ensures Run(p, m, s, fuel) == Run(p, Interrupt(p.handler, m), Quiet, fuel)
  {
  }
}
