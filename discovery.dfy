/**
 * The bounded wait for a temperature bricklet in `TF.check`. Each turn of
 * the loop polls the registry, sleeps one tick (a tenth of a second), during
 * which the enumeration callbacks of that tick are delivered, counts the tick,
 * and gives up once the count exceeds the timeout. The callbacks that arrive
 * during tick i are `arrivals[i]`; ticks past the end of `arrivals` bring none.
 */
module Discovery {
  import opened Wrappers
  import opened DeviceRegistry

  /** The callbacks delivered while the loop sleeps for tick i. */
  function Batch(arrivals: seq<seq<EnumerateEvent>>, i: nat): seq<EnumerateEvent> {
    if i < |arrivals| then arrivals[i] else []
  }

  /** The registry after k sleeps, starting from reg0. */
  function Trace(reg0: Registry, arrivals: seq<seq<EnumerateEvent>>, k: nat): Registry
    decreases k
  {
    if k == 0 then reg0 else DeliverAll(Trace(reg0, arrivals, k - 1), Batch(arrivals, k - 1))
  }

  /** All callbacks of the first k ticks, in order. */
  function TraceEvents(arrivals: seq<seq<EnumerateEvent>>, k: nat): seq<EnumerateEvent>
    decreases k
  {
    if k == 0 then [] else TraceEvents(arrivals, k - 1) + Batch(arrivals, k - 1)
  }

  /** The largest tick count at which the loop still polls: the timeout, or 0 when the timeout is negative. */
  function LastPoll(timeout: int): nat {
    if timeout < 0 then 0 else timeout
  }

  /** How a wait ends: the registry then, the ticks counted, and whether it gave up. */
  datatype Wait = Wait(reg: Registry, ticks: nat, timedOut: bool)

  /** The wait loop, resumed at tick count `ticks` with registry `reg`. */
  function WaitFrom(reg: Registry, arrivals: seq<seq<EnumerateEvent>>, ticks: nat, timeout: int): (w: Wait)
    ensures !w.timedOut ==> w.reg.temp.Some?
    ensures w.ticks >= ticks
    decreases timeout - ticks
  {
    if reg.temp.Some? then Wait(reg, ticks, false)
    else
      var next := DeliverAll(reg, Batch(arrivals, ticks));
      if ticks + 1 > timeout then Wait(next, ticks + 1, true)
      else WaitFrom(next, arrivals, ticks + 1, timeout)
  }

  /** The wait resumed at tick t after t unsuccessful polls of the trace. */
  lemma {:induction false} WaitFromTrace(reg0: Registry, arrivals: seq<seq<EnumerateEvent>>, timeout: int, t: nat)
    requires t <= LastPoll(timeout)
    requires forall j :: 0 <= j < t ==> Trace(reg0, arrivals, j).temp.None?
    ensures var w := WaitFrom(Trace(reg0, arrivals, t), arrivals, t, timeout);
      && w.reg == Trace(reg0, arrivals, w.ticks)
      && (forall j :: 0 <= j < w.ticks && j <= LastPoll(timeout) ==> Trace(reg0, arrivals, j).temp.None?)
      && (w.timedOut <==> forall j :: 0 <= j <= LastPoll(timeout) ==> Trace(reg0, arrivals, j).temp.None?)
      && (w.timedOut ==> w.ticks == LastPoll(timeout) + 1)
      && (!w.timedOut ==> w.ticks <= LastPoll(timeout))
    decreases LastPoll(timeout) - t
  {
    var reg := Trace(reg0, arrivals, t);
    if reg.temp.None? {
      assert Trace(reg0, arrivals, t + 1) == DeliverAll(reg, Batch(arrivals, t));
      if t + 1 <= timeout {
        WaitFromTrace(reg0, arrivals, timeout, t + 1);
      }
    }
  }

  /**
   * The exact outcome of the wait started at tick 0: it stops at the first
   * poll that finds a temperature bricklet, provided that poll comes at tick
   * count LastPoll(timeout) or earlier; otherwise it gives up after exactly
   * LastPoll(timeout) + 1 ticks (timeout + 1 for a non-negative timeout), all
   * of whose polls found nothing. Either way the registry is the trace at the
   * ticks counted.
   */
  lemma WaitExact(reg0: Registry, arrivals: seq<seq<EnumerateEvent>>, timeout: int)
    ensures var w := WaitFrom(reg0, arrivals, 0, timeout);
      && w.reg == Trace(reg0, arrivals, w.ticks)
      && (w.timedOut <==> forall j :: 0 <= j <= LastPoll(timeout) ==> Trace(reg0, arrivals, j).temp.None?)
      && (w.timedOut ==> w.ticks == LastPoll(timeout) + 1)
      && (!w.timedOut ==>
            w.ticks <= LastPoll(timeout) && w.reg.temp.Some?
            && forall j :: 0 <= j < w.ticks ==> Trace(reg0, arrivals, j).temp.None?)
  {
    WaitFromTrace(reg0, arrivals, timeout, 0);
  }

  /** The trace is the registry after all callbacks of its ticks, taken together. */
  lemma {:induction false} TraceIsDelivery(reg0: Registry, arrivals: seq<seq<EnumerateEvent>>, k: nat)
    ensures Trace(reg0, arrivals, k) == DeliverAll(reg0, TraceEvents(arrivals, k))
    decreases k
  {
    if k > 0 {
      TraceIsDelivery(reg0, arrivals, k - 1);
      DeliverAllAppend(reg0, TraceEvents(arrivals, k - 1), Batch(arrivals, k - 1));
    }
  }

  /** Once found, a bricklet stays found on every later poll. */
  lemma {:induction false} TraceKeepsDiscovery(reg0: Registry, arrivals: seq<seq<EnumerateEvent>>, j: nat, k: nat)
    requires j <= k
    requires Trace(reg0, arrivals, j).temp.Some?
    ensures Trace(reg0, arrivals, k).temp.Some?
    decreases k - j
  {
    if j < k {
      TraceKeepsDiscovery(reg0, arrivals, j, k - 1);
      DeliverAllKeepsDiscovery(Trace(reg0, arrivals, k - 1), Batch(arrivals, k - 1));
    }
  }

  /**
   * The wait gives up exactly when nothing was recorded before it started and
   * no callback of the first LastPoll(timeout) ticks announces a temperature
   * bricklet. Callbacks of the final tick are never looked at: the loop gives
   * up right after that sleep without polling again.
   */
  lemma TimeoutIffNoDiscovery(reg0: Registry, arrivals: seq<seq<EnumerateEvent>>, timeout: int)
    ensures WaitFrom(reg0, arrivals, 0, timeout).timedOut <==>
      reg0.temp.None? && forall i :: 0 <= i < |TraceEvents(arrivals, LastPoll(timeout))| ==>
        !Discovers(TraceEvents(arrivals, LastPoll(timeout))[i])
  {
    var n := LastPoll(timeout);
    WaitExact(reg0, arrivals, timeout);
    TraceIsDelivery(reg0, arrivals, n);
    DeliverAllLastWins(reg0, TraceEvents(arrivals, n));
    LastDiscoveredSpec(TraceEvents(arrivals, n));
    if Trace(reg0, arrivals, n).temp.None? {
      forall j | 0 <= j <= n ensures Trace(reg0, arrivals, j).temp.None? {
        if Trace(reg0, arrivals, j).temp.Some? {
          TraceKeepsDiscovery(reg0, arrivals, j, n);
        }
      }
    }
  }

  /** With nothing to find, the wait gives up after exactly timeout + 1 ticks. */
  lemma NeverDiscoveredTimesOut(reg0: Registry, arrivals: seq<seq<EnumerateEvent>>, timeout: int)
    requires reg0.temp.None?
    requires forall i, j :: 0 <= i < |arrivals| && 0 <= j < |arrivals[i]| ==> !Discovers(arrivals[i][j])
    requires timeout >= 0
    ensures WaitFrom(reg0, arrivals, 0, timeout) == Wait(Trace(reg0, arrivals, timeout + 1), timeout + 1, true)
  {
    WaitExact(reg0, arrivals, timeout);
    forall k: nat ensures Trace(reg0, arrivals, k).temp.None? {
      TraceIsDelivery(reg0, arrivals, k);
      DeliverAllLastWins(reg0, TraceEvents(arrivals, k));
      NoDiscoveryInTrace(arrivals, k);
      LastDiscoveredSpec(TraceEvents(arrivals, k));
    }
  }

  lemma {:induction false} NoDiscoveryInTrace(arrivals: seq<seq<EnumerateEvent>>, k: nat)
    requires forall i, j :: 0 <= i < |arrivals| && 0 <= j < |arrivals[i]| ==> !Discovers(arrivals[i][j])
    ensures forall i :: 0 <= i < |TraceEvents(arrivals, k)| ==> !Discovers(TraceEvents(arrivals, k)[i])
    decreases k
  {
    if k > 0 {
      NoDiscoveryInTrace(arrivals, k - 1);
      var front, b := TraceEvents(arrivals, k - 1), Batch(arrivals, k - 1);
      assert forall i :: |front| <= i < |front + b| ==> (front + b)[i] == b[i - |front|];
    }
  }

  /** A bricklet announced during the third sleep, with a timeout of 10: the wait stops at tick 3. */
  lemma FoundAtThirdTick(e: EnumerateEvent)
    requires Discovers(e)
    ensures WaitFrom(Registry(Some(TypeTemperature), None), [[], [], [e]], 0, 10)
      == Wait(Registry(Some(TypeTemperature), Some(e.uid)), 3, false)
  {
  }

  /**
   * With a timeout of 0 a bricklet announced during the only sleep is
   * recorded, yet the wait still gives up: it is not polled again.
   */
  lemma LateDiscoveryIgnored(e: EnumerateEvent)
    requires Discovers(e)
    ensures var w := WaitFrom(Registry(Some(TypeTemperature), None), [[e]], 0, 0);
      w.timedOut && w.ticks == 1 && w.reg.temp == Some(e.uid)
  {
  }
}
