/**
 * src/template.c: the C rendering of what every assembly wrapper does. If the
 * calling thread has a record and its flag is set, the wrapper returns
 * `-EINTR` without entering the kernel; otherwise it makes the call.
 */
module Template {
  import opened Wrappers
  import opened Dispatcher

  /** A wrapper call either enters the kernel and returns its result, or returns `-EINTR` early. */
  datatype Outcome = Issued(result: int) | Early

  /** `sigsafe_read_template` given the thread's record and what `read` would return. */
  function SafeRead(data: Option<Tsd>, kernel: int): (o: Outcome)
    ensures o == Early <==> data.Some? && data.value.signalReceived != 0
    ensures o.Issued? ==> o.result == kernel
  {
    if data == None || data.value.signalReceived == 0 then Issued(kernel) else Early
  }

  /** The value the caller sees. */
  function Returned(o: Outcome): int {
    match o
    case Issued(v) => v
    case Early => -EINTR
  }

  /**
   * One thread's history, seen between wrapper calls: a signal delivered to
   * it, a wrapper call whose kernel call would return `kernel`, or a
   * clearing of the flag (`sigsafe_clear_received`).
   */
  datatype Op = Deliver | Call(kernel: int) | Clear

  /** A delivery does to the record what `sighandler` does; a clear resets the flag. */
  function Step(d: Option<Tsd>, op: Op): Option<Tsd> {
    match op
    case Deliver => SighandlerEffect(d, [], 0).0
    case Clear => if d.Some? then Some(d.value.(signalReceived := 0)) else d
    case Call(_) => d
  }

  /** The thread's record after a history. */
  function After(d: Option<Tsd>, h: seq<Op>): Option<Tsd> {
    if h == [] then d else Step(After(d, h[..|h| - 1]), h[|h| - 1])
  }

  /** What each wrapper call of a history returns, in order. */
  function Returns(d: Option<Tsd>, h: seq<Op>): seq<int> {
    if h == [] then []
    else
      Returns(d, h[..|h| - 1])
      + match h[|h| - 1] { case Call(k) => [Returned(SafeRead(After(d, h[..|h| - 1]), k))] case _ => [] }
  }

  /** Some signal was delivered and no clear came after it. */
  ghost predicate SignalSinceClear(h: seq<Op>) {
    exists j :: 0 <= j < |h| && h[j] == Deliver && forall l :: j < l < |h| ==> h[l] != Clear
  }

  predicate NoClear(h: seq<Op>) {
    forall l :: 0 <= l < |h| ==> h[l] != Clear
  }

  /**
   * A registered thread keeps its record, user word and destructor, and its
   * flag is set exactly when a signal arrived since the last clear (or the
   * flag was set to begin with and nothing cleared it).
   */
  lemma {:induction false} FlagTracksHistory(d: Option<Tsd>, h: seq<Op>)
    requires d.Some?
    ensures After(d, h).Some?
    ensures After(d, h).value.userData == d.value.userData && After(d, h).value.destructor == d.value.destructor
    ensures After(d, h).value.signalReceived != 0 <==>
      SignalSinceClear(h) || (d.value.signalReceived != 0 && NoClear(h))
  {
    if h != [] {
      var init, last := h[..|h| - 1], h[|h| - 1];
      FlagTracksHistory(d, init);
      assert forall l :: 0 <= l < |init| ==> init[l] == h[l];
      match last
      case Deliver =>
        assert h[|h| - 1] == Deliver;
      case Clear =>
      case Call(_) =>
        if SignalSinceClear(h) {
          var j :| 0 <= j < |h| && h[j] == Deliver && forall l :: j < l < |h| ==> h[l] != Clear;
          assert SignalSinceClear(init) by { assert j < |init|; }
        }
        if SignalSinceClear(init) {
          var j :| 0 <= j < |init| && init[j] == Deliver && forall l :: j < l < |init| ==> init[l] != Clear;
          assert h[j] == Deliver;
        }
    }
  }

  /**
   * A wrapper call made after history `h` returns `-EINTR` without entering
   * the kernel exactly when the thread is registered and a signal arrived
   * since the last clear; otherwise it returns what the kernel returns.
   */
  lemma CallAfterHistory(d: Option<Tsd>, h: seq<Op>, kernel: int)
    requires d.None? || d.value.signalReceived == 0
    ensures SafeRead(After(d, h), kernel) == Early <==> d.Some? && SignalSinceClear(h)
    ensures SafeRead(After(d, h), kernel) != Early ==> SafeRead(After(d, h), kernel) == Issued(kernel)
  {
    if d.Some? {
      FlagTracksHistory(d, h);
    } else {
      UnregisteredInert(h);
    }
  }

  /** A thread without a record is never affected by signals: every call enters the kernel. */
  lemma {:induction false} UnregisteredInert(h: seq<Op>)
    ensures After(None, h) == None
    ensures forall kernel :: SafeRead(After(None, h), kernel) == Issued(kernel)
  {
    if h != [] {
      UnregisteredInert(h[..|h| - 1]);
    }
  }

  /**
   * The flag test of the test suite: a call, a signal, two calls (both
   * interrupted, since the flag stays set), a clear, and a call that goes
   * through again.
   */
  lemma ReceivedFlagScenario()
    ensures Returns(Some(Tsd(0, 0, None)), [Call(0), Deliver, Call(0), Call(0), Clear, Call(0)]) == [0, -EINTR, -EINTR, 0]
  {
    var d := Some(Tsd(0, 0, None));
    var h1, h2, h3, h4, h5, h6 := [Call(0)], [Call(0), Deliver], [Call(0), Deliver, Call(0)],
      [Call(0), Deliver, Call(0), Call(0)], [Call(0), Deliver, Call(0), Call(0), Clear],
      [Call(0), Deliver, Call(0), Call(0), Clear, Call(0)];
    assert h1[..0] == [] && h2[..1] == h1 && h3[..2] == h2 && h4[..3] == h3 && h5[..4] == h4 && h6[..5] == h5;
    assert After(d, h2) == Some(Tsd(1, 0, None)) && Returns(d, h2) == [0];
    assert Returns(d, h4) == [0, -EINTR, -EINTR];
    assert After(d, h5) == d;
  }
}
