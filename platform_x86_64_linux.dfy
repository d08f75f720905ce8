/**
 * src/x86_64-linux/sighandler_platform.c: `sighandler_for_platform` walks the descriptor table and
 * rewrites `gregs[REG_RIP]` when it lies in a jump region.
 */
module X86_64Linux {
  import opened SyscallTable

  /** The part of the saved machine context this port reads and writes: `uc_mcontext.gregs[REG_RIP]`. */
  class UContext {
    var rip: nat
  }

  /**
   * Walks the table up to the entry whose `address` is NULL; on the first entry
   * whose inclusive `[minjmp, maxjmp]` holds the saved `gregs[REG_RIP]` it sets
   * `gregs[REG_RIP]` to that entry's `jmpto` and returns; otherwise the context is left alone.
   */
  method SighandlerForPlatform(syscalls: array<Syscall>, ctx: UContext)
    requires Terminated(syscalls[..], ByAddress)
    modifies ctx
    ensures ctx.rip == Redirected(syscalls[..], old(ctx.rip), ByAddress)
  {
    var rip := ctx.rip;
    ghost var k :| 0 <= k < syscalls.Length && IsSentinel(syscalls[k], ByAddress);
    var i := 0;
    while syscalls[i].address != NULL
      invariant 0 <= i <= k
      invariant Scan(syscalls[..], rip, ByAddress, i) == Scan(syscalls[..], rip, ByAddress, 0)
      invariant ctx.rip == rip
      decreases k - i
    {
      if syscalls[i].minjmp <= rip && rip <= syscalls[i].maxjmp {
        ctx.rip := syscalls[i].jmpto;
        return;
      }
      i := i + 1;
    }
  }
}
