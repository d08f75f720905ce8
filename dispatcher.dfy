/**
 * The platform-independent part of sigsafe (src/sigsafe.c): the per-signal
 * user-handler slots, the per-thread data record, the process signal
 * handler, the TSD destructor and the two installation calls.
 */
module Dispatcher {
  import opened Wrappers
  import opened SyscallTable
  import X86_64Linux

  /** Number of signal slots (`NSIG` on Linux/glibc). */
  const NSIG: nat := 65
  const EINTR: int := 4
  const ENOMEM: int := 12

  type Thread = nat
  /** Identity of a user-supplied function pointer (signal handler or destructor). */
  type HandlerId = nat

  /** `struct sigsafe_tsd`: the flag, the user's word, the optional destructor. */
  datatype Tsd = Tsd(signalReceived: int, userData: int, destructor: Option<HandlerId>)

  /** The disposition `sigaction` records for a signal. */
  datatype SigAction = SigAction(restart: bool, siginfo: bool)

  /** What `sigsafe_install_handler` asks of `sigaction`: `SA_RESTART | SA_SIGINFO`. */
  const SigsafeAction: SigAction := SigAction(true, true)

  /** Side effects visible outside the library, in the order they happen. */
  datatype Event =
    | KeyCreated
    | UserHandlerRan(handler: HandlerId, signum: int, userData: int)
    | FlagSet(thread: Thread)
    | PlatformAdjusted(before: nat, after: nat)
    | DestructorRan(destructor: HandlerId, userData: int)

  /** A call either returns or stops the process on a failed `assert`. */
  datatype Status = Completed | AssertionFailed

  /** The user-handler slots of a process in which no handler has been installed. */
  function NoHandlers(): (h: seq<Option<HandlerId>>)
    ensures |h| == NSIG && forall s :: 0 <= s < NSIG ==> h[s].None?
  {
    seq(NSIG, _ => None)
  }

  /**
   * What `sighandler` does to one thread's record and saved PC (the user
   * handler aside): nothing without a record; otherwise the flag is set and
   * the PC is redirected by the table.
   */
  function SighandlerEffect(t: Option<Tsd>, table: seq<Syscall>, pc: nat): (r: (Option<Tsd>, nat))
    ensures t.None? ==> r == (t, pc)
    ensures t.Some? ==> r.0 == Some(t.value.(signalReceived := 1))
    ensures t.Some? && (forall j: nat :: Reached(table, ByAddress, 0, j) ==> !InRegion(table[j], pc)) ==> r.1 == pc
  {
    if t.None? then (t, pc) else (Some(t.value.(signalReceived := 1)), Redirected(table, pc, ByAddress))
  }

  class Process {
    /** `user_handlers[NSIG]`. */
    const userHandlers: array<Option<HandlerId>>
    /** `sigsafe_syscalls[]`, consulted by the x86_64-linux platform scan. */
    const syscalls: array<Syscall>
    /** `pthread_getspecific(sigsafe_key)` for each thread that has a record. */
    var tsd: map<Thread, Tsd>
    /** Whether `sigsafe_init` has run (through `sigsafe_once`). */
    var keyCreated: bool
    /** The dispositions `sigaction` has accepted for `sighandler`. */
    var actions: map<int, SigAction>
    var trace: seq<Event>

    ghost predicate Valid()
      reads this, syscalls
    {
      userHandlers.Length == NSIG && userHandlers != syscalls as object && Terminated(syscalls[..], ByAddress)
    }

    /** A process at startup: static storage zeroed, no key, no records. */
    constructor(table: array<Syscall>)
      requires Terminated(table[..], ByAddress)
      ensures Valid() && syscalls == table && fresh(userHandlers)
      ensures userHandlers[..] == NoHandlers()
      ensures tsd == map[] && !keyCreated && actions == map[] && trace == []
    {
      syscalls := table;
      userHandlers := new Option<HandlerId>[NSIG](_ => None);
      tsd := map[];
      keyCreated := false;
      actions := map[];
      trace := [];
    }

    /**
     * `sigsafe_install_handler`: asserts the signal number is in range, creates
     * the key on the first call, stores the user handler in its slot (before,
     * and regardless of whether, `sigaction` succeeds), then asks `sigaction`
     * for `sighandler` with `SA_RESTART | SA_SIGINFO`. `sigactionErrno` is the
     * errno `sigaction` reports, 0 when it succeeds; the result is its
     * negation.
     */
    method InstallHandler(signum: int, handler: Option<HandlerId>, sigactionErrno: nat) returns (status: Status, r: int)
      requires Valid()
      modifies this, userHandlers
      ensures Valid()
      ensures status == AssertionFailed <==> !(0 <= signum < NSIG)
      ensures status == AssertionFailed ==> unchanged(this) && unchanged(userHandlers)
      ensures status == Completed ==>
        && keyCreated
        && trace == old(trace) + (if old(keyCreated) then [] else [KeyCreated])
        && userHandlers[..] == old(userHandlers[..])[signum := handler]
        && r == -(sigactionErrno as int)
        && actions == (if sigactionErrno == 0 then old(actions)[signum := SigsafeAction] else old(actions))
        && tsd == old(tsd)
    {
      if !(0 <= signum < NSIG) {
        return AssertionFailed, 0;
      }
      if !keyCreated {
        keyCreated := true;
        trace := trace + [KeyCreated];
      }
      userHandlers[signum] := handler;
      if sigactionErrno != 0 {
        return Completed, -(sigactionErrno as int);
      }
      actions := actions[signum := SigsafeAction];
      return Completed, 0;
    }

    /**
     * `sigsafe_install_tsd` for the calling thread: asserts the thread has no
     * record yet; `mallocOk` is whether the allocation succeeds and
     * `setspecificErr` what `pthread_setspecific` returns. On success the
     * thread's record holds a clear flag, the user's word and the destructor.
     * The call does not create `sigsafe_key` itself: both `pthread_getspecific`
     * and `pthread_setspecific` need the key that `sigsafe_install_handler`
     * created, so the caller must have installed a handler first.
     */
    method InstallTsd(thread: Thread, userData: int, destructor: Option<HandlerId>, mallocOk: bool, setspecificErr: nat)
      returns (status: Status, r: int)
      requires Valid() && keyCreated
      modifies this
      ensures Valid()
      ensures status == AssertionFailed <==> thread in old(tsd)
      ensures keyCreated == old(keyCreated) && actions == old(actions) && trace == old(trace)
      ensures status == AssertionFailed ==> tsd == old(tsd)
      ensures status == Completed ==>
        if !mallocOk then r == -ENOMEM && tsd == old(tsd)
        else if setspecificErr != 0 then r == -(setspecificErr as int) && tsd == old(tsd)
        else r == 0 && tsd == old(tsd)[thread := Tsd(0, userData, destructor)]
    {
      if thread in tsd {
        return AssertionFailed, 0;
      }
      if !mallocOk {
        return Completed, -ENOMEM;
      }
      var record := Tsd(0, userData, destructor);
      if setspecificErr != 0 {
        return Completed, -(setspecificErr as int);
      }
      tsd := tsd[thread := record];
      return Completed, 0;
    }

    /**
     * `sighandler`, on the x86_64-linux port, for a signal delivered to
     * `thread` with saved context `ctx`. After the range assert, a thread
     * without a record is left entirely alone; otherwise the user handler of
     * that signal, if any, runs with the thread's user word, then the
     * thread's flag is set, then the saved PC is redirected by the table.
     */
    method Sighandler(signum: int, thread: Thread, ctx: X86_64Linux.UContext) returns (status: Status)
      requires Valid()
      modifies this, ctx
      ensures Valid()
      ensures keyCreated == old(keyCreated) && actions == old(actions)
      ensures status == AssertionFailed <==> !(0 <= signum < NSIG)
      ensures status == AssertionFailed || thread !in old(tsd) ==>
        tsd == old(tsd) && trace == old(trace) && ctx.rip == old(ctx.rip)
      ensures status == Completed && thread in old(tsd) ==>
        && tsd == old(tsd)[thread := old(tsd)[thread].(signalReceived := 1)]
        && ctx.rip == Redirected(syscalls[..], old(ctx.rip), ByAddress)
        && trace == old(trace)
             + (if userHandlers[signum].Some?
                then [UserHandlerRan(userHandlers[signum].value, signum, old(tsd)[thread].userData)]
                else [])
             + [FlagSet(thread), PlatformAdjusted(old(ctx.rip), ctx.rip)]
      ensures status == Completed ==>
        (if thread in tsd then Some(tsd[thread]) else None, ctx.rip)
          == SighandlerEffect(if thread in old(tsd) then Some(old(tsd)[thread]) else None, syscalls[..], old(ctx.rip))
    {
      var present := thread in tsd;
      if !(0 <= signum < NSIG) {
        return AssertionFailed;
      }
      if present {
        var record := tsd[thread];
        var h := userHandlers[signum];
        if h.Some? {
          trace := trace + [UserHandlerRan(h.value, signum, record.userData)];
        }
        tsd := tsd[thread := record.(signalReceived := 1)];
        trace := trace + [FlagSet(thread)];
        var before := ctx.rip;
        X86_64Linux.SighandlerForPlatform(syscalls, ctx);
        trace := trace + [PlatformAdjusted(before, ctx.rip)];
      }
      return Completed;
    }

    /**
     * `tsd_destructor`, run by the threads library at exit of a thread whose
     * value is non-NULL: calls the destructor, if any, with the user word,
     * then frees the record (the thread no longer has one). The library only
     * runs it for the key that `sigsafe_init` created with it.
     */
    method TsdDestructor(thread: Thread)
      requires Valid() && keyCreated && thread in tsd
      modifies this
      ensures Valid()
      ensures keyCreated == old(keyCreated) && actions == old(actions)
      ensures tsd == old(tsd) - {thread}
      ensures trace == old(trace) +
        (if old(tsd)[thread].destructor.Some?
         then [DestructorRan(old(tsd)[thread].destructor.value, old(tsd)[thread].userData)]
         else [])
    {
      var record := tsd[thread];
      if record.destructor.Some? {
        trace := trace + [DestructorRan(record.destructor.value, record.userData)];
      }
      tsd := tsd - {thread};
    }
  }

  /** Linux's `SIGUSR1`. */
  const SIGUSR1: int := 10

  /**
   * The thread-data scenario of the test suite: a second thread installs a
   * record, installs a handler for `SIGUSR1`, signals itself and exits
   * without clearing its flag. The user handler sees that thread's word, the
   * destructor then sees the same word, and the first thread's record is
   * untouched throughout. As in the suite, the main thread has installed a
   * handler, and so created the key, before the second thread starts.
   */
  method SubthreadScenario(p: Process, main: Thread, sub: Thread, word: int, handler: HandlerId, destructor: HandlerId,
                           ctx: X86_64Linux.UContext)
    requires p.Valid() && p.keyCreated && sub != main && sub !in p.tsd
    modifies p, p.userHandlers, ctx
    ensures p.Valid()
    ensures sub !in p.tsd
    ensures (main in p.tsd <==> main in old(p.tsd)) && (main in p.tsd ==> p.tsd[main] == old(p.tsd)[main])
    ensures |p.trace| >= 4
    ensures exists before: nat, after: nat ::
      p.trace[|p.trace| - 4..] ==
        [UserHandlerRan(handler, SIGUSR1, word), FlagSet(sub), PlatformAdjusted(before, after), DestructorRan(destructor, word)]
  {
    var st, r := p.InstallTsd(sub, word, Some(destructor), true, 0);
    st, r := p.InstallHandler(SIGUSR1, Some(handler), 0);
    var before := ctx.rip;
    st := p.Sighandler(SIGUSR1, sub, ctx);
    var after := ctx.rip;
    p.TsdDestructor(sub);
    assert p.trace[|p.trace| - 4..] ==
      [UserHandlerRan(handler, SIGUSR1, word), FlagSet(sub), PlatformAdjusted(before, after), DestructorRan(destructor, word)];
  }
}
