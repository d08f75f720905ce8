/**
 * The process-wide `sigsafe_syscalls[]` table of src/sigsafe.c:55-72, built
 * from the link-time symbols each assembly trampoline exports
 * (`sigsafe_XXX`, `sigsafe_XXX_minjmp`, `sigsafe_XXX_maxjmp`,
 * `sigsafe_XXX_jmpto`), and the rule the table is meant to obey
 * (docsrc/porting.h:11-18).
 */
module Registry {
  import opened SyscallTable

  /**
   * Where the linker placed one trampoline: its entry point, the flag read
   * (`minjmp`), the kernel-entry instruction (`maxjmp`), the instruction that
   * returns the real result (`ret`) and the abort path (`jmpto`).
   */
  datatype Layout = Layout(entry: nat, minjmp: nat, maxjmp: nat, ret: nat, jmpto: nat)

  /**
   * The shape every trampoline has: two instructions that load and test the
   * TSD pointer, then the flag read at `minjmp` followed by its branch, the
   * kernel entry at `maxjmp`, the normal return, and the abort path placed
   * after the code proper, outside the jump region.
   */
  predicate Shaped(l: Layout) {
    NULL < l.entry && l.entry + 2 <= l.minjmp && l.minjmp + 2 <= l.maxjmp && l.maxjmp < l.ret < l.jmpto
  }

  /** The trampoline's code occupies the addresses `[entry, jmpto]`. */
  predicate Within(l: Layout, a: nat) {
    l.entry <= a <= l.jmpto
  }

  /** The symbols of every trampoline the table names. */
  datatype Symbols = Symbols(
    read: Layout, readv: Layout, write: Layout, writev: Layout, epollWait: Layout,
    kevent: Layout, select: Layout, poll: Layout, wait4: Layout, accept: Layout, connect: Layout)

  /** The two conditionally compiled rows: `HAVE_EPOLL_WAIT` and `HAVE_POLL`. */
  datatype Config = Config(haveEpollWait: bool, havePoll: bool)

  datatype Named = Named(name: string, layout: Layout)

  /** The wrapped calls in table order, each with its own trampoline. */
  function Wrapped(s: Symbols, c: Config): seq<Named> {
    [Named("read", s.read), Named("readv", s.readv), Named("write", s.write), Named("writev", s.writev)]
    + (if c.haveEpollWait then [Named("epoll_wait", s.epollWait)] else [])
    + [Named("kevent", s.kevent), Named("select", s.select)]
    + (if c.havePoll then [Named("poll", s.poll)] else [])
    + [Named("wait4", s.wait4), Named("accept", s.accept), Named("connect", s.connect)]
  }

  /** The all-NULL row that ends the table. */
  const Terminator: Syscall := Syscall("", NULL, NULL, NULL, NULL)

  /** The row a trampoline's own four symbols give. */
  function Entry(n: Named): Syscall {
    Syscall(n.name, n.layout.entry, n.layout.minjmp, n.layout.maxjmp, n.layout.jmpto)
  }

  /**
   * The table exactly as src/sigsafe.c:55-72 writes it: `readv` and `writev`
   * take `maxjmp` and `jmpto` from `read` and `write`, and `kevent` and
   * `select` give their own `maxjmp` as `jmpto`.
   */
  function SourceTable(s: Symbols, c: Config): seq<Syscall> {
    [ Syscall("read", s.read.entry, s.read.minjmp, s.read.maxjmp, s.read.jmpto),
      Syscall("readv", s.readv.entry, s.readv.minjmp, s.read.maxjmp, s.read.jmpto),
      Syscall("write", s.write.entry, s.write.minjmp, s.write.maxjmp, s.write.jmpto),
      Syscall("writev", s.writev.entry, s.writev.minjmp, s.write.maxjmp, s.write.jmpto) ]
    + (if c.haveEpollWait
       then [Syscall("epoll_wait", s.epollWait.entry, s.epollWait.minjmp, s.epollWait.maxjmp, s.epollWait.jmpto)]
       else [])
    + [ Syscall("kevent", s.kevent.entry, s.kevent.minjmp, s.kevent.maxjmp, s.kevent.maxjmp),
        Syscall("select", s.select.entry, s.select.minjmp, s.select.maxjmp, s.select.maxjmp) ]
    + (if c.havePoll then [Syscall("poll", s.poll.entry, s.poll.minjmp, s.poll.maxjmp, s.poll.jmpto)] else [])
    + [ Syscall("wait4", s.wait4.entry, s.wait4.minjmp, s.wait4.maxjmp, s.wait4.jmpto),
        Syscall("accept", s.accept.entry, s.accept.minjmp, s.accept.maxjmp, s.accept.jmpto),
        Syscall("connect", s.connect.entry, s.connect.minjmp, s.connect.maxjmp, s.connect.jmpto),
        Terminator ]
  }

  /** One row per wrapped call, in order, each from that call's own symbols. */
  function Entries(w: seq<Named>): (r: seq<Syscall>)
    ensures |r| == |w|
    ensures forall i :: 0 <= i < |w| ==> r[i] == Entry(w[i])
  {
    if w == [] then [] else [Entry(w[0])] + Entries(w[1..])
  }

  /** The table as the porting rule intends it: every row uses its own trampoline's symbols. */
  function IntendedTable(s: Symbols, c: Config): seq<Syscall> {
    Entries(Wrapped(s, c)) + [Terminator]
  }

  /**
   * The documented rule for a table: sentinel-terminated; every consulted
   * region is non-empty; no `jmpto` lies inside a consulted region (so a
   * redirected thread is never redirected again and never re-enters a
   * call); and the regions of distinct rows do not overlap.
   */
  ghost predicate WellFormed(t: seq<Syscall>, f: SentinelField) {
    && Terminated(t, f)
    && (forall i: nat :: Reached(t, f, 0, i) ==> t[i].minjmp <= t[i].maxjmp)
    && (forall i: nat, j: nat :: Reached(t, f, 0, i) && Reached(t, f, 0, j) ==> !InRegion(t[i], t[j].jmpto))
    && (forall i: nat, j: nat :: Reached(t, f, 0, i) && Reached(t, f, 0, j) && i != j ==>
          t[i].maxjmp < t[j].minjmp || t[j].maxjmp < t[i].minjmp)
  }

  /**
   * What the rule buys: a PC the scan has just redirected (some consulted
   * row's `jmpto`) is left where it is by a second scan.
   */
  lemma WellFormedRedirectsOnce(t: seq<Syscall>, f: SentinelField, i: nat)
    requires WellFormed(t, f) && Reached(t, f, 0, i)
    ensures Redirected(t, t[i].jmpto, f) == t[i].jmpto
  {
    NoMatchUnchanged(t, t[i].jmpto, f);
  }

  /**
   * The symbols the literal table in effect uses: `readv` and `writev` end
   * their regions and jump where `read` and `write` do, and `kevent` and
   * `select` jump to their own `maxjmp`.
   */
  function AsWritten(s: Symbols): Symbols {
    s.(readv := s.readv.(maxjmp := s.read.maxjmp, jmpto := s.read.jmpto),
       writev := s.writev.(maxjmp := s.write.maxjmp, jmpto := s.write.jmpto),
       kevent := s.kevent.(jmpto := s.kevent.maxjmp),
       select := s.select.(jmpto := s.select.maxjmp))
  }

  /**
   * The literal table is the intended table with those four rows' symbols
   * replaced, and every other row exactly as the porting rule intends it.
   */
  lemma SourceTableAsIntended(s: Symbols, c: Config)
    ensures SourceTable(s, c) == IntendedTable(AsWritten(s), c)
  {
    var w := Wrapped(AsWritten(s), c);
    var e := Entries(w);
    var src := SourceTable(s, c);
    assert |src| == |w| + 1;
    forall i | 0 <= i < |src| ensures src[i] == (e + [Terminator])[i] {
      if i < |w| {
        assert e[i] == Entry(w[i]);
      }
    }
  }

  /** Every trampoline has the usual shape and no two share an address. */
  predicate Placed(w: seq<Named>) {
    && (forall i :: 0 <= i < |w| ==> Shaped(w[i].layout))
    && (forall i, j :: 0 <= i < |w| && 0 <= j < |w| && i != j ==>
          w[i].layout.jmpto < w[j].layout.entry || w[j].layout.jmpto < w[i].layout.entry)
  }

  predicate LayoutOk(s: Symbols, c: Config) {
    Placed(Wrapped(s, c))
  }

  /** The rows the intended table's scan consults are exactly the wrapped calls. */
  lemma IntendedReached(s: Symbols, c: Config, f: SentinelField)
    requires LayoutOk(s, c)
    ensures forall i: nat :: Reached(IntendedTable(s, c), f, 0, i) <==> i < |Wrapped(s, c)|
  {
    var w, t := Wrapped(s, c), IntendedTable(s, c);
    assert IsSentinel(t[|w|], f);
    forall i: nat | i < |w| ensures Reached(t, f, 0, i) {
      forall l | 0 <= l <= i ensures !IsSentinel(t[l], f) {
        assert t[l] == Entry(w[l]) && Shaped(w[l].layout);
      }
    }
  }

  /** A placed set of trampolines yields a table that obeys the rule, on either kind of sentinel. */
  lemma IntendedTableWellFormed(s: Symbols, c: Config, f: SentinelField)
    requires LayoutOk(s, c)
    ensures WellFormed(IntendedTable(s, c), f)
  {
    var w, t := Wrapped(s, c), IntendedTable(s, c);
    IntendedReached(s, c, f);
    assert IsSentinel(t[|w|], f);
    forall i: nat, j: nat | Reached(t, f, 0, i) && Reached(t, f, 0, j)
      ensures !InRegion(t[i], t[j].jmpto)
    {
      assert t[i] == Entry(w[i]) && t[j] == Entry(w[j]);
    }
    forall i: nat, j: nat | Reached(t, f, 0, i) && Reached(t, f, 0, j) && i != j
      ensures t[i].maxjmp < t[j].minjmp || t[j].maxjmp < t[i].minjmp
    {
      assert t[i] == Entry(w[i]) && t[j] == Entry(w[j]);
    }
    forall i: nat | Reached(t, f, 0, i) ensures t[i].minjmp <= t[i].maxjmp {
      assert t[i] == Entry(w[i]);
    }
  }

  /** Position of `kevent` in both the literal table and the wrapped calls. */
  function KeventIndex(c: Config): nat {
    if c.haveEpollWait then 5 else 4
  }

  /**
   * However the trampolines are placed, the literal table breaks the rule:
   * the `kevent` row's `jmpto` is its own `maxjmp`, inside its own region.
   */
  lemma SourceTableIllFormed(s: Symbols, c: Config, f: SentinelField)
    requires LayoutOk(s, c)
    ensures !WellFormed(SourceTable(s, c), f)
  {
    var w, t, k := Wrapped(s, c), SourceTable(s, c), KeventIndex(c);
    assert w[k].layout == s.kevent;
    assert Shaped(s.kevent);
    forall l | 0 <= l <= k ensures !IsSentinel(t[l], f) {
      assert t[l].address == w[l].layout.entry && t[l].minjmp == w[l].layout.minjmp;
      assert Shaped(w[l].layout);
    }
    assert Reached(t, f, 0, k);
    assert InRegion(t[k], t[k].jmpto);
  }

  /**
   * A table agrees with a trampoline when, at every address of the
   * trampoline's code, the scan redirects exactly the region's addresses, and
   * to that trampoline's `jmpto`.
   */
  ghost predicate Agrees(t: seq<Syscall>, l: Layout) {
    forall a: nat :: Within(l, a) ==>
      Redirected(t, a, ByAddress) == if l.minjmp <= a <= l.maxjmp then l.jmpto else a
  }

  /** The intended table agrees with every wrapped trampoline it was built from. */
  lemma IntendedAgrees(s: Symbols, c: Config, i: nat)
    requires LayoutOk(s, c) && i < |Wrapped(s, c)|
    ensures Agrees(IntendedTable(s, c), Wrapped(s, c)[i].layout)
  {
    var w, t := Wrapped(s, c), IntendedTable(s, c);
    var l := w[i].layout;
    IntendedReached(s, c, ByAddress);
    forall a: nat | Within(l, a)
      ensures Redirected(t, a, ByAddress) == if l.minjmp <= a <= l.maxjmp then l.jmpto else a
    {
      if l.minjmp <= a <= l.maxjmp {
        forall j | 0 <= j < i ensures !InRegion(t[j], a) {
          assert t[j] == Entry(w[j]);
        }
        assert t[i] == Entry(w[i]);
        FirstMatchWins(t, a, ByAddress, i);
      } else {
        forall j: nat | Reached(t, f := ByAddress, i := 0, j := j) ensures !InRegion(t[j], a) {
          assert t[j] == Entry(w[j]);
        }
        NoMatchUnchanged(t, a, ByAddress);
      }
    }
  }

  /** Trampolines laid out one after another in table order do not share addresses. */
  lemma {:induction false} AscendingPlaced(w: seq<Named>)
    requires forall i :: 0 <= i < |w| ==> Shaped(w[i].layout)
    requires forall i :: 0 <= i < |w| - 1 ==> w[i].layout.jmpto < w[i + 1].layout.entry
    ensures Placed(w)
  {
    if |w| > 1 {
      AscendingPlaced(w[1..]);
      forall j | 1 <= j < |w| ensures w[0].layout.jmpto < w[j].layout.entry {
        AscendingFrom(w, j);
      }
    }
  }

  lemma {:induction false} AscendingFrom(w: seq<Named>, j: nat)
    requires forall i :: 0 <= i < |w| ==> Shaped(w[i].layout)
    requires forall i :: 0 <= i < |w| - 1 ==> w[i].layout.jmpto < w[i + 1].layout.entry
    requires 1 <= j < |w|
    ensures w[0].layout.jmpto < w[j].layout.entry
  {
    if j > 1 {
      AscendingFrom(w, j - 1);
    }
  }

  /** A concrete placement: the trampolines one after another, 100 bytes apart, in table order. */
  const ExampleSymbols: Symbols := Symbols(
    Layout(100, 110, 120, 125, 130), Layout(200, 210, 220, 225, 230),
    Layout(300, 310, 320, 325, 330), Layout(400, 410, 420, 425, 430),
    Layout(500, 510, 520, 525, 530), Layout(600, 610, 620, 625, 630),
    Layout(700, 710, 720, 725, 730), Layout(800, 810, 820, 825, 830),
    Layout(900, 910, 920, 925, 930), Layout(1000, 1010, 1020, 1025, 1030),
    Layout(1100, 1110, 1120, 1125, 1130))

  const ExampleConfig: Config := Config(false, false)

  lemma ExampleLayoutOk()
    ensures LayoutOk(ExampleSymbols, ExampleConfig)
  {
    AscendingPlaced(Wrapped(ExampleSymbols, ExampleConfig));
  }

  /**
   * With the example placement, a signal whose saved PC lies in `kevent`'s
   * region `[610, 620]` is sent by the literal table to the kernel-entry
   * instruction 620, while the intended table sends it to 630.
   */
  lemma SourceKeventRedirectsIntoRegion(a: nat)
    requires 610 <= a <= 620
    ensures Redirected(SourceTable(ExampleSymbols, ExampleConfig), a, ByAddress) == 620
    ensures Redirected(IntendedTable(ExampleSymbols, ExampleConfig), a, ByAddress) == 630
  {
    var t := SourceTable(ExampleSymbols, ExampleConfig);
    assert Reached(t, ByAddress, 0, 4);
    FirstMatchWins(t, a, ByAddress, 4);
    ExampleLayoutOk();
    IntendedAgrees(ExampleSymbols, ExampleConfig, 4);
    assert Within(ExampleSymbols.kevent, a);
  }

  /**
   * With the example placement (`readv` after `read`), the literal `readv`
   * row spans `[210, 120]`, an empty region: a signal at `readv`'s
   * kernel-entry instruction (220) is not redirected at all, while the
   * intended table sends it to 230.
   */
  lemma SourceReadvMissesItsSyscall()
    ensures Redirected(SourceTable(ExampleSymbols, ExampleConfig), 220, ByAddress) == 220
    ensures Redirected(IntendedTable(ExampleSymbols, ExampleConfig), 220, ByAddress) == 230
  {
    var t := SourceTable(ExampleSymbols, ExampleConfig);
    forall j: nat | Reached(t, ByAddress, 0, j) ensures !InRegion(t[j], 220) {
      assert j < 9 by { assert IsSentinel(t[9], ByAddress); }
    }
    NoMatchUnchanged(t, 220, ByAddress);
    ExampleLayoutOk();
    IntendedAgrees(ExampleSymbols, ExampleConfig, 1);
  }
}
