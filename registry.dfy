/**
 * The plugin's record of the discovered bricklet: the device type it will
 * report on and the handle of the temperature bricklet, kept as that
 * bricklet's UID. Enumeration callbacks update it; `OnEnumerate` is the
 * effect of one callback and `DeliverAll` that of several in arrival order.
 */
module DeviceRegistry {
  import opened Wrappers

  /** A bricklet's unique identifier as the bridge reports it. */
  type Uid = string

  /** The kind of an enumeration callback: listed on request, newly connected, or gone. */
  datatype EnumerationType = Available | Connected | Disconnected

  /** The arguments the bridge passes to the enumeration callback. */
  datatype EnumerateEvent = EnumerateEvent(
    uid: Uid,
    connectedUid: Uid,
    position: char,
    hardwareVersion: seq<int>,
    firmwareVersion: seq<int>,
    deviceIdentifier: int,
    enumerationType: EnumerationType)

  /** The device identifier of the Temperature Bricklet. */
  const TemperatureDeviceIdentifier: int := 216

  /** The device type names the plugin knows. */
  const TypeHumidity: string := "humidity"
  const TypeTemperature: string := "temperature"
  const TypePtc: string := "ptc"
  const TypeAmbientLight: string := "ambient_light"

  /** The two fields of the plugin object that enumeration changes; None is Python's None. */
  datatype Registry = Registry(deviceType: Option<string>, temp: Option<Uid>)

  /** The event announces a temperature bricklet that is present. */
  predicate Discovers(e: EnumerateEvent) {
    e.enumerationType != Disconnected && e.deviceIdentifier == TemperatureDeviceIdentifier
  }

  /** The effect of one enumeration callback. */
  function OnEnumerate(reg: Registry, e: EnumerateEvent): (r: Registry)
    ensures r != reg ==> Discovers(e)
    ensures Discovers(e) ==> r.deviceType == Some(TypeTemperature) && r.temp == Some(e.uid)
  {
    if e.enumerationType == Disconnected then reg
    else if e.deviceIdentifier == TemperatureDeviceIdentifier then Registry(Some(TypeTemperature), Some(e.uid))
    else reg
  }

  /** The effect of the callbacks `es`, delivered first to last. */
  function DeliverAll(reg: Registry, es: seq<EnumerateEvent>): (r: Registry)
    ensures r == reg || (r.deviceType == Some(TypeTemperature) && r.temp.Some?)
    ensures reg.temp.Some? ==> r.temp.Some?
    ensures (forall i :: 0 <= i < |es| ==> !Discovers(es[i])) ==> r == reg
    decreases |es|
  {
    if |es| == 0 then reg else OnEnumerate(DeliverAll(reg, es[..|es| - 1]), es[|es| - 1])
  }

  /** The UID of the last event of `es` that announces a present temperature bricklet. */
  function LastDiscovered(es: seq<EnumerateEvent>): Option<Uid>
    decreases |es|
  {
    if |es| == 0 then None
    else
      match LastDiscovered(es[1..])
      case Some(u) => Some(u)
      case None => if Discovers(es[0]) then Some(es[0].uid) else None
  }

  /**
   * One callback: a disconnection, or any bricklet other than a temperature
   * bricklet, changes nothing; a temperature bricklet replaces both fields,
   * whatever they held.
   */
  lemma OnEnumerateCases(reg: Registry, e: EnumerateEvent)
    ensures e.enumerationType == Disconnected ==> OnEnumerate(reg, e) == reg
    ensures e.deviceIdentifier != TemperatureDeviceIdentifier ==> OnEnumerate(reg, e) == reg
    ensures Discovers(e) ==> OnEnumerate(reg, e) == Registry(Some(TypeTemperature), Some(e.uid))
  {
  }

  /** Appending one event to a sequence changes its last discovery only if that event discovers. */
  lemma {:induction false} LastDiscoveredSnoc(es: seq<EnumerateEvent>, e: EnumerateEvent)
    ensures LastDiscovered(es + [e]) == if Discovers(e) then Some(e.uid) else LastDiscovered(es)
    decreases |es|
  {
    if |es| == 0 {
      assert LastDiscovered([e][1..]) == None;
    } else {
      assert (es + [e])[1..] == es[1..] + [e];
      LastDiscoveredSnoc(es[1..], e);
    }
  }

  /**
   * Last write wins: after a run of callbacks the registry holds the last
   * temperature bricklet announced, and is untouched when none was.
   */
  lemma {:induction false} DeliverAllLastWins(reg: Registry, es: seq<EnumerateEvent>)
    ensures DeliverAll(reg, es) == match LastDiscovered(es)
      case None => reg
      case Some(u) => Registry(Some(TypeTemperature), Some(u))
    decreases |es|
  {
    if |es| > 0 {
      var init, e := es[..|es| - 1], es[|es| - 1];
      assert es == init + [e];
      DeliverAllLastWins(reg, init);
      LastDiscoveredSnoc(init, e);
    }
  }

  /** LastDiscovered picks the announcing event that no later announcing event follows. */
  lemma {:induction false} LastDiscoveredSpec(es: seq<EnumerateEvent>)
    ensures LastDiscovered(es).None? <==> forall i :: 0 <= i < |es| ==> !Discovers(es[i])
    ensures LastDiscovered(es).Some? ==>
      (exists i :: 0 <= i < |es| && Discovers(es[i]) && es[i].uid == LastDiscovered(es).value
        && (forall j :: i < j < |es| ==> !Discovers(es[j])))
    decreases |es|
  {
    if |es| > 0 {
      LastDiscoveredSpec(es[1..]);
      assert forall i :: 1 <= i < |es| ==> es[i] == es[1..][i - 1];
      if LastDiscovered(es[1..]).Some? {
        var i :| 0 <= i < |es[1..]| && Discovers(es[1..][i]) && es[1..][i].uid == LastDiscovered(es[1..]).value
          && forall j :: i < j < |es[1..]| ==> !Discovers(es[1..][j]);
        assert Discovers(es[i + 1]) && forall j :: i + 1 < j < |es| ==> !Discovers(es[j]);
      }
    }
  }

  /** Two runs of callbacks act as their concatenation. */
  lemma {:induction false} DeliverAllAppend(reg: Registry, a: seq<EnumerateEvent>, b: seq<EnumerateEvent>)
    ensures DeliverAll(DeliverAll(reg, a), b) == DeliverAll(reg, a + b)
    decreases |b|
  {
    if |b| > 0 {
      var init, e := b[..|b| - 1], b[|b| - 1];
      assert (a + b)[..|a + b| - 1] == a + init;
      assert (a + b)[|a + b| - 1] == e;
      DeliverAllAppend(reg, a, init);
    } else {
      assert a + b == a;
    }
  }

  /** A recorded temperature bricklet is never cleared: later callbacks can only replace it. */
  lemma DeliverAllKeepsDiscovery(reg: Registry, es: seq<EnumerateEvent>)
    requires reg.temp.Some?
    ensures DeliverAll(reg, es).temp.Some?
  {
  }

  /** Two temperature bricklets announced one after the other leave only the second. */
  lemma TwoDiscoveriesKeepSecond(reg: Registry, first: EnumerateEvent, second: EnumerateEvent)
    requires Discovers(first) && Discovers(second)
    ensures DeliverAll(reg, [first, second]) == Registry(Some(TypeTemperature), Some(second.uid))
  {
  }
}
