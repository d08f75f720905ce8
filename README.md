# sigsafe, modelled in Dafny

sigsafe gives a thread blocking system-call wrappers that return `-EINTR`
when a "safe" signal arrives before or during the transition into the
kernel, and that never throw away the result of a call that has completed.
Its moving parts are modelled here:

- **Per-thread record and dispatcher** (`dispatcher.dfy`, src/sigsafe.c). A
  `Process` class holds the `NSIG` user-handler slots (an array), the
  descriptor table (an array), each thread's record `{signal_received,
  user_data, destructor}` (a map), whether the pthread key exists, the
  dispositions `sigaction` accepted, and a trace of the side effects visible
  outside the library. Its methods are `sigsafe_install_handler`,
  `sigsafe_install_tsd`, the signal handler `sighandler` and the thread-exit
  destructor `tsd_destructor`.
- **The descriptor table** (`registry.dfy`). The table is built from each
  trampoline's link-time symbols. `SourceTable` is the table exactly as
  written. `IntendedTable` is the table the porting rule asks for. The rule
  itself is `WellFormed`.
- **The platform scans** (`syscall_table.dfy`, `platform_*.dfy`). Each of the
  nine `sighandler_platform.c` files is a method. It loops over an array
  of descriptors and rewrites the saved program counter of a context object
  in place. Each method is proved against one specification function,
  `Redirected`, and the scan's properties are lemmas about that function.
- **The trampoline protocol** (`template.dfy`, `machine.dfy`, `zones.dfy`).
  `Template` covers `sigsafe_read_template` (src/template.c) and the
  behaviour of one thread's calls over a history of signals and flag clears.
  `Machine` is an instruction-level model of one thread running a wrapper:
  - the signal arrives after a chosen number of instructions, or while the
    thread is blocked in the kernel;
  - the handler runs with the saved PC, with or without `SA_RESTART`.

  `Zones` proves the end-to-end guarantees for every signal offset.
- **The race checker's read tests** (`races_io.dfy`,
  tests/race_checker/races_io.c). This module covers:
  - the classifiers `do_sigsafe_read`, `do_racebefore_read` and `do_raceafter_read`;
  - the check-then-call and `siglongjmp` patterns, as instruction listings;
  - the pipe that `nudge_read` writes to;
  - the verdicts the sweep expects of each pattern: success, an ignored
    signal, and a forgotten result.

The system call in the machine is a one-byte `read` from a pipe. When the
pipe is empty the thread sleeps until the checker's nudge writes the byte.
A thread that sleeps after its signal has been handled is the checker's
"ignored signal". A call that consumed the byte but reports `INTERRUPTED` is
its "forgotten result".

Where the documentation and the code disagree, the model follows the code:
- src/sigsafe.h:182-183 documents `-EINVAL` as the only failure of
  `sigsafe_install_handler`. The code returns `-errno` for whatever
  `sigaction` reports (src/sigsafe.c:107-109).
- The code stores the user handler in its slot before calling `sigaction`,
  so the slot is written even when `sigaction` fails (src/sigsafe.c:104).

## Model

| member | source | states |
|---|---|---|
| Dispatcher.NoHandlers | src/sigsafe.c:15 | the static `user_handlers` array has `NSIG` slots, all empty at startup |
| Dispatcher.SighandlerEffect | src/sigsafe.c:74-84 | a thread without a record keeps its record and saved PC; a thread with one gets `signal_received == 1` with the other fields kept; a PC in no consulted region is left alone |
| Dispatcher.Process.constructor | src/sigsafe.c:13-15 | a fresh process has every handler slot empty, no key, no records and no dispositions |
| Dispatcher.Process.InstallHandler | src/sigsafe.c:98-111 | the call stops on a failed assert exactly when `signum` is outside `[0, NSIG)`, and then changes nothing; otherwise the key is created once, only `user_handlers[signum]` is written, the result is `-errno` of `sigaction` (0 on success), and the disposition `SA_RESTART \| SA_SIGINFO` is recorded only on success; no thread's record changes |
| Dispatcher.Process.InstallTsd | src/sigsafe.c:113-135 | called once `sigsafe_install_handler` has created `sigsafe_key` (the call never creates it itself): the call stops on a failed assert exactly when the thread already has a record; an allocation failure returns `-ENOMEM`, a `pthread_setspecific` failure returns its negated code, and in both the thread keeps no record; on success the record is `{0, user_data, destructor}` and the result is 0 |
| Dispatcher.Process.Sighandler | src/sigsafe.c:74-84 | the call stops on a failed assert exactly when `signum` is out of range; a thread without a record is left completely alone; otherwise the registered user handler runs first and receives that thread's `user_data`, then the flag is set to 1, then the platform scan rewrites the saved PC to `Redirected(table, pc)`, in that order; the new record and PC are those `SighandlerEffect` gives |
| Dispatcher.Process.TsdDestructor | src/sigsafe.c:86-92 | run only for the key `sigsafe_init` created with it, and only for a thread with a record: the user destructor, if any, runs exactly once with the record's `user_data`, and then the record is gone |
| Dispatcher.SubthreadScenario | tests/suite.c:167-210 | in a process whose main thread has already installed a handler, a thread that installs a record and a handler, and then signals itself: its user handler and its destructor both see its own word, after the flag is set and the PC is adjusted; another thread's record is untouched |
| SyscallTable.Scan | src/x86_64-linux/sighandler_platform.c:20-26 | an entry the scan stops at is consulted (before the sentinel), holds the PC in its inclusive region, and no earlier consulted entry does |
| SyscallTable.ScanNoneMeansNoRegion | src/x86_64-linux/sighandler_platform.c:20-28 | a scan that finds nothing saw no consulted region holding the PC |
| SyscallTable.ScanFinds | src/x86_64-linux/sighandler_platform.c:20-26 | conversely, the first consulted entry whose region holds the PC is the one found |
| SyscallTable.ScanMisses | src/x86_64-linux/sighandler_platform.c:20-28 | with the PC in no consulted region the scan finds nothing |
| SyscallTable.ScanIgnoresAfterSentinel | src/x86_64-linux/sighandler_platform.c:20 | entries after the first sentinel never influence the scan |
| SyscallTable.FirstMatchWins | src/x86_64-linux/sighandler_platform.c:20-26 | the PC is redirected to `jmpto` of the first consulted entry whose inclusive `[minjmp, maxjmp]` holds it |
| SyscallTable.NoMatchUnchanged | src/x86_64-linux/sighandler_platform.c:20-28 | a PC in no consulted region is left unchanged |
| SyscallTable.ZeroMinjmpUnrepresentable | src/alpha-linux/sighandler_platform.c:18 | on the ports whose sentinel is `minjmp == NULL`, an entry whose region starts at address 0 ends the table, so neither it nor any later entry is ever selected |
| X86_64Linux.SighandlerForPlatform | src/x86_64-linux/sighandler_platform.c:16-29 | the loop to the `address == NULL` sentinel leaves `gregs[REG_RIP]` redirected by the table: the first matching entry's `jmpto`, or unchanged |
| I386Linux.SighandlerForPlatform | src/i386-linux/sighandler_platform.c:11-21 | the same for `gregs[REG_EIP]` |
| Ia64Linux.SighandlerForPlatform | src/ia64-linux/sighandler_platform.c:15-28 | the same for `sc_ip` |
| I386Netbsd.SighandlerForPlatform | src/i386-netbsd/sighandler_platform.c:15-28 | the same for `sc_eip` |
| AlphaLinux.SighandlerForPlatform | src/alpha-linux/sighandler_platform.c:14-27 | the same for `sc_pc`, scanning to the `minjmp == NULL` sentinel |
| AlphaFreebsd.SighandlerForPlatform | src/alpha-freebsd/sighandler_platform.c:15-28 | the same for `mc_regs[R_PC]` with the `minjmp` sentinel; no other register of the file is modified |
| I386Freebsd.SighandlerForPlatform | src/i386-freebsd/sighandler_platform.c:14-27 | the same for `mc_eip` with the `minjmp` sentinel |
| SparcSolaris.SighandlerForPlatform | src/sparc-solaris/sighandler_platform.c:15-29 | `REG_PC` is redirected by the table; on a match `REG_nPC` becomes `jmpto + 4`, so `nPC == PC + 4`; with no match neither register changes |
| PpcDarwin.SighandlerForPlatform | src/ppc-darwin/sighandler_platform.c:8-18 | `srr0` is redirected by the table; the handler leaves through `sigreturn` exactly when an entry matched, and returns normally after reaching the sentinel otherwise |
| Registry.SourceTableAsIntended | src/sigsafe.c:55-72 | the literal table is exactly the intended table of trampolines whose `readv`/`writev` end and jump where `read`/`write` do and whose `kevent`/`select` jump to their own `maxjmp`; every other row is as intended |
| Registry.WellFormedRedirectsOnce | docsrc/porting.h:11-18 | under the porting rule, a PC the table has redirected (a consulted row's `jmpto`) is never redirected again |
| Registry.Entries | src/sigsafe.c:55-72 | the intended table has one row per wrapped call, in order, each built from that call's own symbols |
| Registry.IntendedReached | src/sigsafe.c:55-72 | the rows the scan of the intended table consults are exactly the wrapped calls, on either kind of sentinel |
| Registry.IntendedTableWellFormed | docsrc/porting.h:11-18 | a table built from properly placed trampolines obeys the porting rule: terminated, non-empty regions, no `jmpto` inside a region, no overlapping regions |
| Registry.SourceTableIllFormed | src/sigsafe.c:63-64 | the table as written breaks the rule however the trampolines are placed: `kevent`'s `jmpto` is inside its own region |
| Registry.IntendedAgrees | docsrc/porting.h:11-18 | across each wrapped trampoline's code, the intended table redirects exactly the region's addresses, to that trampoline's `jmpto` |
| Registry.ExampleLayoutOk | src/sigsafe.c:55-72 | the example placement (trampolines one after another in table order) is a proper placement |
| Registry.SourceKeventRedirectsIntoRegion | src/sigsafe.c:63 | with the written table, every saved PC in `kevent`'s region `[610, 620]` is sent to its kernel entry 620, inside the region; with the intended table it goes to `jmpto` (630) |
| Registry.SourceReadvMissesItsSyscall | src/sigsafe.c:57 | with the written table, `readv`'s row has an empty region, so a signal at its kernel entry is not redirected; the intended table redirects it |
| Template.SafeRead | src/template.c:23-31 | the call returns early exactly when the thread has a record whose flag is set, and otherwise returns exactly what the kernel returned |
| Template.FlagTracksHistory | src/template.c:23-31 | no wrapper call writes the record; the flag is set exactly when a signal arrived since the last clear (or it was set and nothing cleared it); the user word and destructor are kept |
| Template.CallAfterHistory | src/template.c:27-30 | starting clear, a call returns `-EINTR` without entering the kernel exactly when the thread is registered and a signal arrived since the last clear; otherwise it returns the kernel's result unchanged |
| Template.UnregisteredInert | src/template.c:27-28 | a thread without a record is never affected: its record stays NULL and every call enters the kernel |
| Template.ReceivedFlagScenario | tests/suite.c:60-86 | a call, a signal, two calls, a clear and a call return `0, -EINTR, -EINTR, 0` |
| Machine.At | docsrc/porting.h:11-18 | in a trampoline of the usual shape, the flag is read only at `minjmp`, the kernel is entered only at `maxjmp`, and `-EINTR` is returned only at `jmpto` |
| Machine.Deliver | src/sigsafe.c:74-84 | every handler leaves the registers, result, pipe and exit alone; sigsafe's handler sets the record's flag (a thread without one keeps its PC and record); the checker's `note_signal` only counts the signal; the `siglongjmp` handler counts it and, when `jump_is_safe`, resumes just after `sigsetjmp` |
| Machine.Interrupt | src/sigsafe.c:106 | a call blocked in the kernel under sigsafe's `SA_RESTART` handler is re-armed: the handler sees the kernel-entry instruction; under the checker's handlers, installed with `sa_flags == 0`, `read` fails with `-EINTR` first and `note_signal` sees the next instruction |
| Zones.BailsFrom | src/template.c:27-30 | from the entry up to the flag read, a set flag makes the wrapper return `-EINTR` without entering the kernel |
| Zones.BailsAtJmpto | docsrc/porting.h:11-18 | at `jmpto`, which lies outside the region, the wrapper returns `-EINTR` whether or not the signal arrives there |
| Zones.FinishesFrom | src/template.c:28 | after the kernel entry the wrapper returns the kernel's result |
| Zones.DeliverRegistered | src/sigsafe.c:81-82 | on a trampoline the table agrees with, the handler sets the flag and redirects exactly the region to `jmpto` |
| Zones.ZoneSignalFirst | src/sigsafe.h:207-220 | a signal before the flag read or inside `[minjmp, maxjmp]` gives `-EINTR` without a kernel call; after the kernel entry (byte available) the byte is returned; the thread never sleeps |
| Zones.ZoneSignalLate | src/sigsafe.h:217-219 | a signal after the wrapper has returned leaves the result intact |
| Zones.ZoneSignalBlocked | src/sigsafe.h:213-215 | a signal that finds the call blocked in the kernel makes it return `-EINTR`, despite `SA_RESTART`, and nothing is consumed |
| Zones.SigsafeReadZones | src/sigsafe.h:207-220 | for every offset: the wrapper returns `-EINTR` without consuming the byte exactly when the signal comes no later than the kernel entry or finds the call blocked, and returns 1 otherwise; it never sleeps after the signal |
| Zones.SigsafeReadSweep | tests/race_checker/race_checker.c:7-11 | a signal at the first instruction interrupts and one after the last does not; the interrupted offsets form an initial section |
| Zones.FlagSetNeverIssues | src/template.c:27-30 | with the flag already set the wrapper never enters the kernel, wherever the signal comes |
| Zones.UnregisteredInsensitive | src/sigsafe.c:77 | on any code, a thread without a record runs exactly as if no signal came |
| Zones.UnregisteredQuietRun | src/template.c:27-28 | without a record the wrapper goes straight to the kernel |
| Zones.UnregisteredIgnoresSignals | src/sigsafe.h:196-198 | signals to a thread without a record are silently ignored: the call completes with the byte, sleeping for it when the pipe was empty |
| Zones.NoSignalMatchesTemplate | src/template.c:23-31 | without a signal the trampoline returns early exactly when `sigsafe_read_template` does, and otherwise returns the kernel's result |
| Zones.UnredirectedKernelEntrySleeps | docsrc/porting.h:11-18 | if the table does not redirect a trampoline's kernel entry, a signal that finds the call blocked is lost and the thread sleeps |
| Zones.RedirectedToKernelEntrySleeps | docsrc/porting.h:11-18 | if the table sends a PC at or before the kernel entry to the kernel entry itself, a signal there sets the flag but the thread skips the flag test, enters the kernel and sleeps: the signal is lost |
| Zones.SourceKeventLosesSignal | src/sigsafe.c:63 | with the written table, a signal that arrives while `kevent`'s thread is anywhere in `[minjmp, maxjmp]` before entering the kernel (offsets 10 to 20) is lost and the call sleeps; with the intended table the call returns `-EINTR` |
| Zones.SourceReadvLosesSignal | src/sigsafe.c:57 | with the written table, a signal that finds `readv` blocked is lost; with the intended table the call returns `-EINTR` |
| RacesIo.DoSigsafeRead | tests/race_checker/races_io.c:44-57 | `-EINTR` is `INTERRUPTED`, exactly 1 is `NORMAL`, anything else `WEIRD` |
| RacesIo.ClassifyLibcRead | tests/race_checker/races_io.c:67-74 | `read` failing with `EINTR` is `INTERRUPTED`, returning 1 is `NORMAL`, anything else `WEIRD` |
| RacesIo.ClassifyJumpRead | tests/race_checker/races_io.c:88-94 | after the jump pattern's `read`, 1 is `NORMAL` and anything else `WEIRD`; `INTERRUPTED` only comes from the flag test |
| RacesIo.RacebeforeProgram | tests/race_checker/races_io.c:59-75 | the check-then-call listing: the checker's flag is read first, its branch goes to the `INTERRUPTED` return, `read` is the only kernel call, and the handler is installed without `SA_RESTART` |
| RacesIo.RaceafterProgram | tests/race_checker/races_io.c:77-95 | the jump listing: `sigsetjmp`, `jump_is_safe = 1`, the flag read; `read` is the only kernel call; every return is preceded by `jump_is_safe = 0`; the handler is installed without `SA_RESTART` |
| RacesIo.RacebeforeSignalFirst | tests/race_checker/races_io.c:64-66 | a signal before the flag test returns `INTERRUPTED` without issuing `read` |
| RacesIo.RacebeforeSignalBetween | tests/race_checker/races_io.c:64-67 | a signal between the flag test and `read` is ignored: `read` sleeps and returns 1 |
| RacesIo.RacebeforeSignalBlocked | tests/race_checker/races_io.c:67-69 | a signal that finds `read` blocked, installed without `SA_RESTART`, makes it fail with `EINTR` |
| RacesIo.RacebeforeSweep | tests/race_checker/races_io.c:59-75 | with the pipe empty, the thread sleeps exactly for a signal at instruction 1 or 2, is then `NORMAL`, and is `INTERRUPTED` at every other offset |
| RacesIo.RacebeforeIgnoresSignal | docsrc/porting.h:81 | the racebefore verdict: some offset ignores the signal |
| RacesIo.RaceafterNoted | tests/race_checker/races_io.c:82-87 | once the checker's flag is set, the jump pattern at or after `sigsetjmp` returns `INTERRUPTED`, clears `jump_is_safe` and touches nothing else |
| RacesIo.RaceafterDelivered | tests/race_checker/races_io.c:82-89 | a signal handled before `jump_is_safe` is cleared ends in `INTERRUPTED` with `jump_is_safe` clear |
| RacesIo.RaceafterSignalEarly | tests/race_checker/races_io.c:82-89 | with the byte available, a signal before `jump_is_safe` is cleared gives `INTERRUPTED`, and the byte has been consumed exactly when the signal came after `read` returned |
| RacesIo.RaceafterSignalLate | tests/race_checker/races_io.c:89-91 | a signal after `jump_is_safe` is cleared lets the byte through as `NORMAL` |
| RacesIo.RaceafterSweep | tests/race_checker/races_io.c:77-95 | with the byte available, every run returns with `jump_is_safe == 0` without sleeping; the result is forgotten exactly at the offset after `read` and before the clear; `INTERRUPTED` up to there and `NORMAL` after it |
| RacesIo.RaceafterForgetsResult | docsrc/porting.h:82 | the raceafter verdict: some offset forgets the completed result |
| RacesIo.RaceafterEmptyPipe | tests/race_checker/races_io.c:77-95 | with the pipe empty, every signal gives `INTERRUPTED` with nothing consumed, so nothing is lost, and `jump_is_safe == 0` |
| RacesIo.SigsafeReadSucceeds | docsrc/porting.h:80 | sigsafe's wrapper never gives `WEIRD`, a sleep after the signal or a lost result; it gives `INTERRUPTED` exactly when the signal comes no later than the kernel entry or finds the call blocked, so `INTERRUPTED` offsets are followed by `NORMAL` ones |
| RacesIo.Pipe.NudgeRead | tests/race_checker/races_io.c:98-104 | the nudge appends exactly one byte (26) to the pipe, which then holds a byte to read |

## Left out

- I/O, `fork`, `ptrace` and the checker's driver loop (tests/race_checker/race_checker.c) are not modelled. The sweep over offsets is a lemma quantified over every offset.
- The process runs one thread at a time, and one signal per run. Real concurrency, signal masks and nested signals are not modelled.
- `pthread_once`, the pthread key, `malloc`, `free` and `pthread_setspecific` are abstract state or parameters. Allocation success, the `pthread_setspecific` code and the `sigaction` errno are inputs to `InstallTsd` and `InstallHandler`.
- The record is a value in a per-thread map, not a pointer, so aliasing of records is not modelled.
- The user handler and the user destructor are trace events carrying the arguments they receive. Their own effects are not modelled, nor are the `siginfo_t` and context pointers passed to the user handler.
- Dispatcher.Process.Sighandler calls only the x86_64-linux scan. The other eight ports are separate methods proved against the same `Redirected` specification.
- The assembly trampolines in `*/syscalls.h` are modelled by one generic instruction layout (`Machine.At`): TSD load and test, flag read at `minjmp`, branch, kernel entry at `maxjmp`, return, and the abort path at `jmpto`. Per-platform registers, system-call numbers and errno conventions are not modelled.
- The kernel call is a one-byte `read` that returns 1. The nudge is modelled in the machine by the blocked thread sleeping and then getting the byte.
- Runs carry instruction fuel. Every lemma requires enough fuel for the longest path (`Zones.Budget`, or 4 and 11 for the race listings).
- `sigsafe_clear_received` is not part of this model. It appears only as the `Clear` step of a thread's history, restricted to resetting the flag.
- The handler of the `siglongjmp` pattern is taken from the pattern documented at src/sigsafe.h:70-87. It is assumed to be installed without `SA_RESTART`, like the checker's other unsafe handler (tests/race_checker/races_generic.c:21-27). That file's own installation code is not part of this model.
- `NSIG` (65), `SIGUSR1` (10), `EINTR` (4) and `ENOMEM` (12) take the Linux values. Addresses are unbounded naturals with NULL as 0, and wrap-around is not modelled.
- The superseded top-level sigsafe.c draft, the unfinished ppc-darwin/ draft, `*/emulated_syscalls.c`, benchmarks, byte-count stress tests and platform-behaviour probes are not part of this model.
- Machine.Interrupt: a sigsafe call blocked in the kernel is re-armed under `SA_RESTART`, as Linux does for `read` and `readv`. On the BSDs and Darwin, `kevent` and `select` return `EINTR` whatever `SA_RESTART` says, and the model does not tell the calls apart. For that reason the `kevent` finding rests on a signal before the kernel entry, not on a blocked call.
- RacesIo.Pipe: the pipe stands on its own. The machine's `ready` flag is what `Readable()` says of the pipe, but no lemma links a `Pipe` object to a run of the machine.
- Dispatcher.SubthreadScenario: `pthread_create`, `pthread_join` and `pthread_kill` are not modelled. The signal is handed to `Sighandler` directly.

## Findings

| source | as written | input that shows it | evidently intended | confidence | as-written member | corrected member |
|---|---|---|---|---|---|---|
| src/sigsafe.c:63-64 | the `kevent` and `select` rows give `&sigsafe_XXX_maxjmp` as `jmpto` | with `kevent` at 600 and its region `[610, 620]`, a signal after 10 to 20 instructions (the flag read, the branch, or the kernel entry, before the kernel is entered): the handler sets the flag but sends the PC to the kernel entry 620, past the flag test, so the call sleeps and the signal is lost | `&sigsafe_kevent_jmpto` and `&sigsafe_select_jmpto`, outside the region | not executed | Registry.SourceTableIllFormed, Registry.SourceKeventRedirectsIntoRegion, Zones.SourceKeventLosesSignal | Registry.IntendedTableWellFormed, Registry.IntendedAgrees, Zones.SigsafeReadZones |
| src/sigsafe.c:57,59 | the `readv` and `writev` rows take `maxjmp` and `jmpto` from `read` and `write` | with `readv` placed after `read`, its region `[readv_minjmp, read_maxjmp]` is empty, so a signal that finds `readv` blocked is not redirected and is lost | each row uses its own call's `maxjmp` and `jmpto` | not executed | Registry.SourceReadvMissesItsSyscall, Zones.SourceReadvLosesSignal | Registry.IntendedAgrees, Zones.SigsafeReadZones |
