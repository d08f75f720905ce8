/**
 * The syscall descriptor table and the scan every platform's
 * `sighandler_for_platform` performs over it (src/sigsafe.h:332-338,
 * src/sigsafe_internal.h:64-68).
 *
 * Addresses are `nat`; the C NULL pointer is address 0.
 */
module SyscallTable {
  import opened Wrappers

  const NULL: nat := 0

  /**
   * One `struct sigsafe_syscall`. The trimmed `struct sigsafe_syscall_` used
   * by the alpha and i386-freebsd ports has no `name` or `address`; those
   * ports simply never look at the two fields.
   */
  datatype Syscall = Syscall(name: string, address: nat, minjmp: nat, maxjmp: nat, jmpto: nat)

  /** Which field ends the table: `address` on most ports, `minjmp` on the `_` ports. */
  datatype SentinelField = ByAddress | ByMinjmp

  predicate IsSentinel(s: Syscall, f: SentinelField) {
    match f
    case ByAddress => s.address == NULL
    case ByMinjmp => s.minjmp == NULL
  }

  /** The inclusive jump region `[minjmp, maxjmp]` holds `pc`. */
  predicate InRegion(s: Syscall, pc: nat) {
    s.minjmp <= pc <= s.maxjmp
  }

  /** Entry `j` is consulted by a scan that starts at entry `i`: no sentinel in `t[i..j+1]`. */
  predicate Reached(t: seq<Syscall>, f: SentinelField, i: nat, j: nat) {
    i <= j < |t| && forall l :: i <= l <= j ==> !IsSentinel(t[l], f)
  }

  /** The table is sentinel-terminated, so the C scan never runs off its end. */
  predicate Terminated(t: seq<Syscall>, f: SentinelField) {
    exists k :: 0 <= k < |t| && IsSentinel(t[k], f)
  }

  /**
   * Index of the entry the scan stops at, starting from entry `i`: the first
   * entry before the sentinel whose region holds `pc`, or None.
   */
  function Scan(t: seq<Syscall>, pc: nat, f: SentinelField, i: nat): (r: Option<nat>)
    ensures r.Some? ==> Reached(t, f, i, r.value) && InRegion(t[r.value], pc)
    ensures r.Some? ==> forall l :: i <= l < r.value ==> !InRegion(t[l], pc)
    decreases |t| - i
  {
    if i >= |t| || IsSentinel(t[i], f) then None
    else if InRegion(t[i], pc) then Some(i)
    else Scan(t, pc, f, i + 1)
  }

  /** The saved program counter after the scan: `jmpto` of the first match, else unchanged. */
  function Redirected(t: seq<Syscall>, pc: nat, f: SentinelField): nat {
    match Scan(t, pc, f, 0)
    case Some(j) => t[j].jmpto
    case None => pc
  }

  /** A scan that finds nothing saw no consulted region holding `pc`. */
  lemma {:induction false} ScanNoneMeansNoRegion(t: seq<Syscall>, pc: nat, f: SentinelField, i: nat)
    requires Scan(t, pc, f, i).None?
    ensures forall j: nat :: Reached(t, f, i, j) ==> !InRegion(t[j], pc)
    decreases |t| - i
  {
    if i < |t| && !IsSentinel(t[i], f) {
      ScanNoneMeansNoRegion(t, pc, f, i + 1);
      forall j: nat | Reached(t, f, i, j) ensures !InRegion(t[j], pc) {
        if j > i { assert Reached(t, f, i + 1, j); }
      }
    }
  }

  /** Conversely, a consulted entry whose region holds `pc`, with no earlier match, is the one found. */
  lemma {:induction false} ScanFinds(t: seq<Syscall>, pc: nat, f: SentinelField, i: nat, j: nat)
    requires Reached(t, f, i, j) && InRegion(t[j], pc)
    requires forall l :: i <= l < j ==> !InRegion(t[l], pc)
    ensures Scan(t, pc, f, i) == Some(j)
    decreases j - i
  {
    if i < j {
      assert !IsSentinel(t[i], f) && !InRegion(t[i], pc);
      ScanFinds(t, pc, f, i + 1, j);
    }
  }

  /** If no consulted entry holds `pc`, the scan ends at the sentinel without a match. */
  lemma {:induction false} ScanMisses(t: seq<Syscall>, pc: nat, f: SentinelField, i: nat)
    requires forall j: nat :: Reached(t, f, i, j) ==> !InRegion(t[j], pc)
    ensures Scan(t, pc, f, i).None?
    decreases |t| - i
  {
    if i < |t| && !IsSentinel(t[i], f) {
      assert Reached(t, f, i, i);
      forall j: nat | Reached(t, f, i + 1, j) ensures !InRegion(t[j], pc) {
        assert Reached(t, f, i, j);
      }
      ScanMisses(t, pc, f, i + 1);
    }
  }

  /**
   * Entries at or after the first sentinel are never consulted: two tables
   * that agree up to and including a sentinel at `k` scan alike.
   */
  lemma {:induction false} ScanIgnoresAfterSentinel(t: seq<Syscall>, u: seq<Syscall>, pc: nat, f: SentinelField, i: nat, k: nat)
    requires i <= k < |t| && k < |u| && IsSentinel(t[k], f)
    requires forall l :: i <= l <= k ==> t[l] == u[l]
    ensures Scan(t, pc, f, i) == Scan(u, pc, f, i)
    decreases k - i
  {
    if i < k && !IsSentinel(t[i], f) && !InRegion(t[i], pc) {
      ScanIgnoresAfterSentinel(t, u, pc, f, i + 1, k);
    }
  }

  /** Redirection goes to `jmpto` of the first consulted entry whose region holds `pc`. */
  lemma FirstMatchWins(t: seq<Syscall>, pc: nat, f: SentinelField, j: nat)
    requires Reached(t, f, 0, j) && InRegion(t[j], pc)
    requires forall l :: 0 <= l < j ==> !InRegion(t[l], pc)
    ensures Redirected(t, pc, f) == t[j].jmpto
  {
    ScanFinds(t, pc, f, 0, j);
  }

  /** With `pc` in no consulted region the saved program counter is left as it was. */
  lemma NoMatchUnchanged(t: seq<Syscall>, pc: nat, f: SentinelField)
    requires forall j: nat :: Reached(t, f, 0, j) ==> !InRegion(t[j], pc)
    ensures Redirected(t, pc, f) == pc
  {
    ScanMisses(t, pc, f, 0);
  }

  /**
   * On the ports whose sentinel is `minjmp == NULL`, an entry whose region
   * starts at address 0 ends the table: neither it nor anything after it can
   * ever be selected.
   */
  lemma ZeroMinjmpUnrepresentable(t: seq<Syscall>, pc: nat, k: nat)
    requires k < |t| && t[k].minjmp == 0
    ensures Scan(t, pc, ByMinjmp, 0).Some? ==> Scan(t, pc, ByMinjmp, 0).value < k
  {
  }
}
