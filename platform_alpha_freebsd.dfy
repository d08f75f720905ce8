/**
 * src/alpha-freebsd/sighandler_platform.c: scan that rewrites the program
 * counter slot `mc_regs[R_PC]` of the saved register file when it lies in a
 * jump region. The table is `sigsafe_syscalls_`, whose entries carry only the
 * three jump fields.
 */
module AlphaFreebsd {
  import opened SyscallTable

  /**
   * The saved register file `uc_mcontext.mc_regs`. `rPc` is the slot
   * `<machine/reg.h>` names `R_PC`; that header is not part of this model, so
   * the index is carried here rather than fixed.
   */
  class UContext {
    const mcRegs: array<nat>
    const rPc: nat
  }

  /**
   * Walks the table up to the entry whose `minjmp` is NULL; on the first entry
   * whose inclusive `[minjmp, maxjmp]` holds the saved program counter it
   * stores that entry's `jmpto` in `mc_regs[R_PC]` and returns. No other
   * register is written, and nothing at all when no region matches.
   */
  method SighandlerForPlatform(syscalls: array<Syscall>, ctx: UContext)
    requires Terminated(syscalls[..], ByMinjmp)
    requires ctx.rPc < ctx.mcRegs.Length
    modifies ctx.mcRegs
    ensures ctx.mcRegs[ctx.rPc] == Redirected(syscalls[..], old(ctx.mcRegs[ctx.rPc]), ByMinjmp)
    ensures forall r :: 0 <= r < ctx.mcRegs.Length && r != ctx.rPc ==> ctx.mcRegs[r] == old(ctx.mcRegs[r])
  {
    var pc := ctx.mcRegs[ctx.rPc];
    ghost var k :| 0 <= k < syscalls.Length && IsSentinel(syscalls[k], ByMinjmp);
    var i := 0;
    while syscalls[i].minjmp != NULL
      invariant 0 <= i <= k
      invariant Scan(syscalls[..], pc, ByMinjmp, i) == Scan(syscalls[..], pc, ByMinjmp, 0)
      invariant ctx.mcRegs[..] == old(ctx.mcRegs[..])
      decreases k - i
    {
      if syscalls[i].minjmp <= pc && pc <= syscalls[i].maxjmp {
        ctx.mcRegs[ctx.rPc] := syscalls[i].jmpto;
        return;
      }
      i := i + 1;
    }
  }
}
