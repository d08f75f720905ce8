/**
 * src/alpha-linux/sighandler_platform.c: `sigsafe_handler_for_platform_` walks the descriptor table and
 * rewrites `sc_pc` when it lies in a jump region. The table is `sigsafe_syscalls_`,
 * whose entries carry only the three jump fields.
 */
module AlphaLinux {
  import opened SyscallTable

  /** The part of the saved machine context this port reads and writes: `uc_mcontext.sc_pc`. */
  class UContext {
    var scPc: nat
  }

  /**
   * Walks the table up to the entry whose `minjmp` is NULL; on the first entry
   * whose inclusive `[minjmp, maxjmp]` holds the saved `sc_pc` it sets
   * `sc_pc` to that entry's `jmpto` and returns; otherwise the context is left alone.
   */
  method SighandlerForPlatform(syscalls: array<Syscall>, ctx: UContext)
    requires Terminated(syscalls[..], ByMinjmp)
    modifies ctx
    ensures ctx.scPc == Redirected(syscalls[..], old(ctx.scPc), ByMinjmp)
  {
    var scPc := ctx.scPc;
    ghost var k :| 0 <= k < syscalls.Length && IsSentinel(syscalls[k], ByMinjmp);
    var i := 0;
    while syscalls[i].minjmp != NULL
      invariant 0 <= i <= k
      invariant Scan(syscalls[..], scPc, ByMinjmp, i) == Scan(syscalls[..], scPc, ByMinjmp, 0)
      invariant ctx.scPc == scPc
      decreases k - i
    {
      if syscalls[i].minjmp <= scPc && scPc <= syscalls[i].maxjmp {
        ctx.scPc := syscalls[i].jmpto;
        return;
      }
      i := i + 1;
    }
  }
}
