/**
 * src/ia64-linux/sighandler_platform.c: `sighandler_for_platform` walks the descriptor table and
 * rewrites `sc_ip` when it lies in a jump region.
 */
module Ia64Linux {
  import opened SyscallTable

  /** The part of the saved machine context this port reads and writes: `uc_mcontext.sc_ip`. */
  class UContext {
    var scIp: nat
  }

  /**
   * Walks the table up to the entry whose `address` is NULL; on the first entry
   * whose inclusive `[minjmp, maxjmp]` holds the saved `sc_ip` it sets
   * `sc_ip` to that entry's `jmpto` and returns; otherwise the context is left alone.
   */
  method SighandlerForPlatform(syscalls: array<Syscall>, ctx: UContext)
    requires Terminated(syscalls[..], ByAddress)
    modifies ctx
    ensures ctx.scIp == Redirected(syscalls[..], old(ctx.scIp), ByAddress)
  {
    var scIp := ctx.scIp;
    ghost var k :| 0 <= k < syscalls.Length && IsSentinel(syscalls[k], ByAddress);
    var i := 0;
    while syscalls[i].address != NULL
      invariant 0 <= i <= k
      invariant Scan(syscalls[..], scIp, ByAddress, i) == Scan(syscalls[..], scIp, ByAddress, 0)
      invariant ctx.scIp == scIp
      decreases k - i
    {
      if syscalls[i].minjmp <= scIp && scIp <= syscalls[i].maxjmp {
        ctx.scIp := syscalls[i].jmpto;
        return;
      }
      i := i + 1;
    }
  }
}
