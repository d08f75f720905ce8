/**
 * src/sparc-solaris/sighandler_platform.c: scan that rewrites both the
 * program counter `gregs[REG_PC]` and the next program counter
 * `gregs[REG_nPC]` when the saved PC lies in a jump region.
 */
module SparcSolaris {
  import opened Wrappers
  import opened SyscallTable

  /** SPARC resumes at `pc` and then `npc`, so both saved registers are modelled. */
  class UContext {
    var pc: nat
    var npc: nat
  }

  /**
   * Walks the table up to the entry whose `address` is NULL; on the first
   * entry whose inclusive `[minjmp, maxjmp]` holds the saved PC it sets PC to
   * that entry's `jmpto` and nPC to the instruction after it (`jmpto + 4`),
   * then returns. With no match neither register changes.
   */
  method SighandlerForPlatform(syscalls: array<Syscall>, ctx: UContext)
    requires Terminated(syscalls[..], ByAddress)
    modifies ctx
    ensures ctx.pc == Redirected(syscalls[..], old(ctx.pc), ByAddress)
    ensures match Scan(syscalls[..], old(ctx.pc), ByAddress, 0)
            case Some(j) => ctx.npc == syscalls[j].jmpto + 4 && ctx.npc == ctx.pc + 4
            case None => ctx.npc == old(ctx.npc)
  {
    var pc := ctx.pc;
    ghost var k :| 0 <= k < syscalls.Length && IsSentinel(syscalls[k], ByAddress);
    var i := 0;
    while syscalls[i].address != NULL
      invariant 0 <= i <= k
      invariant Scan(syscalls[..], pc, ByAddress, i) == Scan(syscalls[..], pc, ByAddress, 0)
      invariant ctx.pc == pc && ctx.npc == old(ctx.npc)
      decreases k - i
    {
      if syscalls[i].minjmp <= pc && pc <= syscalls[i].maxjmp {
        ctx.pc := syscalls[i].jmpto;
        ctx.npc := syscalls[i].jmpto + 4;
        return;
      }
      i := i + 1;
    }
  }
}
