/**
 * src/i386-netbsd/sighandler_platform.c: `sighandler_for_platform` walks the descriptor table and
 * rewrites `sc_eip` when it lies in a jump region.
 */
module I386Netbsd {
  import opened SyscallTable

  /** The part of the saved machine context this port reads and writes: the `sc_eip` field of `struct sigcontext`. */
  class UContext {
    var scEip: nat
  }

  /**
   * Walks the table up to the entry whose `address` is NULL; on the first entry
   * whose inclusive `[minjmp, maxjmp]` holds the saved `sc_eip` it sets
   * `sc_eip` to that entry's `jmpto` and returns; otherwise the context is left alone.
   */
  method SighandlerForPlatform(syscalls: array<Syscall>, ctx: UContext)
    requires Terminated(syscalls[..], ByAddress)
    modifies ctx
    ensures ctx.scEip == Redirected(syscalls[..], old(ctx.scEip), ByAddress)
  {
    var scEip := ctx.scEip;
    ghost var k :| 0 <= k < syscalls.Length && IsSentinel(syscalls[k], ByAddress);
    var i := 0;
    while syscalls[i].address != NULL
      invariant 0 <= i <= k
      invariant Scan(syscalls[..], scEip, ByAddress, i) == Scan(syscalls[..], scEip, ByAddress, 0)
      invariant ctx.scEip == scEip
      decreases k - i
    {
      if syscalls[i].minjmp <= scEip && scEip <= syscalls[i].maxjmp {
        ctx.scEip := syscalls[i].jmpto;
        return;
      }
      i := i + 1;
    }
  }
}
