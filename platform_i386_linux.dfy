/**
 * src/i386-linux/sighandler_platform.c: `sighandler_for_platform` walks the descriptor table and
 * rewrites `gregs[REG_EIP]` when it lies in a jump region.
 */
module I386Linux {
  import opened SyscallTable

  /** The part of the saved machine context this port reads and writes: `uc_mcontext.gregs[REG_EIP]`. */
  class UContext {
    var eip: nat
  }

  /**
   * Walks the table up to the entry whose `address` is NULL; on the first entry
   * whose inclusive `[minjmp, maxjmp]` holds the saved `gregs[REG_EIP]` it sets
   * `gregs[REG_EIP]` to that entry's `jmpto` and returns; otherwise the context is left alone.
   */
  method SighandlerForPlatform(syscalls: array<Syscall>, ctx: UContext)
    requires Terminated(syscalls[..], ByAddress)
    modifies ctx
    ensures ctx.eip == Redirected(syscalls[..], old(ctx.eip), ByAddress)
  {
    var eip := ctx.eip;
    ghost var k :| 0 <= k < syscalls.Length && IsSentinel(syscalls[k], ByAddress);
    var i := 0;
    while syscalls[i].address != NULL
      invariant 0 <= i <= k
      invariant Scan(syscalls[..], eip, ByAddress, i) == Scan(syscalls[..], eip, ByAddress, 0)
      invariant ctx.eip == eip
      decreases k - i
    {
      if syscalls[i].minjmp <= eip && eip <= syscalls[i].maxjmp {
        ctx.eip := syscalls[i].jmpto;
        return;
      }
      i := i + 1;
    }
  }
}
