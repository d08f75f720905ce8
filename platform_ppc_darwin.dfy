/**
 * src/ppc-darwin/sighandler_platform.c: scan that rewrites the saved program
 * counter `srr0` when it lies in a jump region and then leaves the handler
 * through `sigreturn`, which resumes the interrupted context directly.
 */
module PpcDarwin {
  import opened SyscallTable

  /** The saved `uc_mcontext->ss.srr0`. */
  class UContext {
    var srr0: nat
  }

  /** How control leaves the handler. */
  datatype Exit = Returned | Sigreturned

  /**
   * Walks the table up to the entry whose `address` is NULL. On the first
   * entry whose inclusive `[minjmp, maxjmp]` holds `srr0` it sets `srr0` to
   * that entry's `jmpto` and calls `sigreturn`, which never comes back, so no
   * later entry is examined. Otherwise the loop reaches the sentinel and the
   * function returns normally with the context unchanged.
   */
  method SighandlerForPlatform(syscalls: array<Syscall>, ctx: UContext) returns (exit: Exit)
    requires Terminated(syscalls[..], ByAddress)
    modifies ctx
    ensures ctx.srr0 == Redirected(syscalls[..], old(ctx.srr0), ByAddress)
    ensures exit == Sigreturned <==> Scan(syscalls[..], old(ctx.srr0), ByAddress, 0).Some?
  {
    var srr0 := ctx.srr0;
    ghost var k :| 0 <= k < syscalls.Length && IsSentinel(syscalls[k], ByAddress);
    var i := 0;
    while syscalls[i].address != NULL
      invariant 0 <= i <= k
      invariant Scan(syscalls[..], srr0, ByAddress, i) == Scan(syscalls[..], srr0, ByAddress, 0)
      invariant ctx.srr0 == srr0
      decreases k - i
    {
      if syscalls[i].minjmp <= srr0 && srr0 <= syscalls[i].maxjmp {
        ctx.srr0 := syscalls[i].jmpto;
        exit := Sigreturned;
        return;
      }
      i := i + 1;
    }
    exit := Returned;
  }
}
