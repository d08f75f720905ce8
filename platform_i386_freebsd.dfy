/**
 * src/i386-freebsd/sighandler_platform.c: `sighandler_for_platform` walks the descriptor table and
 * rewrites `mc_eip` when it lies in a jump region. The table is `sigsafe_syscalls_`,
 * whose entries carry only the three jump fields.
 */
module I386Freebsd {
  import opened SyscallTable

  /** The part of the saved machine context this port reads and writes: `uc_mcontext.mc_eip`. */
  class UContext {
    var mcEip: nat
  }

  /**
   * Walks the table up to the entry whose `minjmp` is NULL; on the first entry
   * whose inclusive `[minjmp, maxjmp]` holds the saved `mc_eip` it sets
   * `mc_eip` to that entry's `jmpto` and returns; otherwise the context is left alone.
   */
  method SighandlerForPlatform(syscalls: array<Syscall>, ctx: UContext)
    requires Terminated(syscalls[..], ByMinjmp)
    modifies ctx
    ensures ctx.mcEip == Redirected(syscalls[..], old(ctx.mcEip), ByMinjmp)
  {
    var mcEip := ctx.mcEip;
    ghost var k :| 0 <= k < syscalls.Length && IsSentinel(syscalls[k], ByMinjmp);
    var i := 0;
    while syscalls[i].minjmp != NULL
      invariant 0 <= i <= k
      invariant Scan(syscalls[..], mcEip, ByMinjmp, i) == Scan(syscalls[..], mcEip, ByMinjmp, 0)
      invariant ctx.mcEip == mcEip
      decreases k - i
    {
      if syscalls[i].minjmp <= mcEip && mcEip <= syscalls[i].maxjmp {
        ctx.mcEip := syscalls[i].jmpto;
        return;
      }
      i := i + 1;
    }
  }
}
