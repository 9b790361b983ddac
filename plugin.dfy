/**
 * The plugin object `TF` and one run of the plugin. The object keeps the
 * connection settings it was built with and the two fields enumeration
 * updates; `Check` waits for a temperature bricklet (or binds the UID it is
 * given), reads it and reports. Every call of `output` ends the process, so
 * each method returns the report that call would print, if any.
 */
module Plugin {
  import opened Wrappers
  import opened StatusLine
  import opened Decimal
  import opened DeviceRegistry
  import opened Discovery

  /** Python truthiness of an optional string: present and not empty. */
  predicate Truthy(s: Option<string>) {
    s.Some? && s.value != ""
  }

  const CannotAuthenticate: string := "UNKNOWN - Cannot authenticate"

  /** The timeout message, with its `%s` printed as it stands: nothing is substituted into it. */
  const DetectionTimeout: string :=
    "UNKNOWN - Timeout " + "%s" + " s reached while" + " detecting bricklet." + " Please use -u to" + " specify the device" + " UID."

  lemma DetectionTimeoutHasNoBar()
    ensures '|' !in DetectionTimeout
  {
  }

  /** The label of the temperature report. */
  function TemperatureLabel(v: string): string {
    "Temperature is " + v + " degrees celcius"
  }

  /** What `connect` prints, if anything: only a configured secret that fails to authenticate ends the run. */
  function ConnectOutcome(secret: Option<string>, authSucceeds: bool, prog: string): (r: Option<Report>)
    ensures r.Some? <==> Truthy(secret) && !authSucceeds
    ensures r.Some? ==> r.value == Report(prog + ": " + CannotAuthenticate, 3)
  {
    if Truthy(secret) && !authSucceeds then Some(Output(CannotAuthenticate, 3, name := prog)) else None
  }

  /** The report for a temperature reading `raw` in hundredths of a degree. */
  function TemperatureReport(raw: int, prog: string): Report {
    var v := RenderCenti(raw);
    Output(TemperatureLabel(v), 0, Some([]), Some([("temperature", v)]), prog)
  }

  /** The report when no bricklet turned up in time. */
  function TimeoutReport(prog: string): Report {
    Output(DetectionTimeout, 3, name := prog)
  }

  /** How `check` leaves the registry, the ticks it counted, and what it prints. */
  datatype CheckResult = CheckResult(reg: Registry, ticks: nat, report: Option<Report>)

  /**
   * `check(uid, warning, critical)` from registry `reg`: it does nothing unless the
   * device type is "temperature"; a UID given binds the handle at once; otherwise
   * it waits for the enumeration callbacks. The thresholds take no part.
   */
  function CheckOutcome(reg: Registry, uid: Option<string>, arrivals: seq<seq<EnumerateEvent>>,
                        timeout: int, sensor: Uid -> int, prog: string): (c: CheckResult)
    ensures c.report.Some? <==> reg.deviceType == Some(TypeTemperature)
    ensures c.report.Some? ==> c.report.value.exitCode == 0 || c.report.value.exitCode == 3
    ensures c.report.Some? && c.report.value.exitCode == 0 ==> c.reg.temp.Some?
    ensures c.report.Some? && c.report.value.exitCode == 3 ==> !Truthy(uid) && c.report.value == TimeoutReport(prog)
  {
    if reg.deviceType != Some(TypeTemperature) then CheckResult(reg, 0, None)
    else if Truthy(uid) then
      CheckResult(Registry(reg.deviceType, Some(uid.value)), 0, Some(TemperatureReport(sensor(uid.value), prog)))
    else
      var w := WaitFrom(reg, arrivals, 0, timeout);
      CheckResult(w.reg, w.ticks,
        Some(if w.timedOut then TimeoutReport(prog) else TemperatureReport(sensor(w.reg.temp.value), prog)))
  }

  /** One run of the plugin, the authentication outcome, the callbacks and the sensor readings being given. */
  function RunOutcome(secret: Option<string>, requestedType: string, uid: Option<string>, timeout: int,
                      prog: string, authSucceeds: bool, early: seq<EnumerateEvent>,
                      arrivals: seq<seq<EnumerateEvent>>, sensor: Uid -> int): (r: Option<Report>)
    ensures r.Some? ==> r.value.exitCode == 0 || r.value.exitCode == 3
    ensures r.Some? && r.value.exitCode == 3 ==> (Truthy(secret) && !authSucceeds) || !Truthy(uid)
    ensures r.Some? && r.value.exitCode == 0 ==> !Truthy(secret) || authSucceeds
  {
    match ConnectOutcome(secret, authSucceeds, prog)
    case Some(r) => Some(r)
    case None => CheckOutcome(DeliverAll(Registry(Some(requestedType), None), early), uid, arrivals, timeout, sensor, prog).report
  }

  class TF {
    const host: string
    const port: int
    const secret: Option<string>
    const timeout: int
    const verbose: bool
    var deviceType: Option<string>
    var temp: Option<Uid>

    /** The fields enumeration changes, as one value. */
    function State(): Registry
      reads this
    {
      Registry(deviceType, temp)
    }

    constructor (host: string, port: int, secret: Option<string>, timeout: int, verbose: bool)
      ensures this.host == host && this.port == port && this.secret == secret
      ensures this.timeout == timeout && this.verbose == verbose
      ensures State() == Registry(None, None)
    {
      this.host := host;
      this.port := port;
      this.secret := secret;
      this.timeout := timeout;
      this.verbose := verbose;
      deviceType := None;
      temp := None;
    }

    /**
     * `connect(device_type, uid)`: records the requested device type, then
     * authenticates when a secret is configured; the UID takes no part. The
     * connection itself is outside the model; `authSucceeds` says how
     * authentication went.
     */
    method Connect(requestedType: string, uid: Option<string>, authSucceeds: bool, prog: string) returns (exit: Option<Report>)
      modifies this
      ensures State() == Registry(Some(requestedType), old(temp))
      ensures exit == ConnectOutcome(secret, authSucceeds, prog)
    {
      deviceType := Some(requestedType);
      exit := None;
      if Truthy(secret) && !authSucceeds {
        exit := Some(Output(CannotAuthenticate, 3, name := prog));
      }
    }

    /** `cb_enumerate`: one enumeration callback. */
    method CbEnumerate(e: EnumerateEvent)
      modifies this
      ensures State() == OnEnumerate(old(State()), e)
    {
      if e.enumerationType == Disconnected {
        return;
      }
      if e.deviceIdentifier == TemperatureDeviceIdentifier {
        temp := Some(e.uid);
        deviceType := Some(TypeTemperature);
      }
    }

    /** The callbacks that arrive while the plugin sleeps, delivered in order. */
    method Deliver(events: seq<EnumerateEvent>)
      modifies this
      ensures State() == DeliverAll(old(State()), events)
    {
      var i := 0;
      while i < |events|
        invariant 0 <= i <= |events|
        invariant State() == DeliverAll(old(State()), events[..i])
      {
        CbEnumerate(events[i]);
        assert events[..i + 1][..i] == events[..i];
        i := i + 1;
      }
      assert events[..i] == events;
    }

    /**
     * `check(uid, warning, critical)`. `arrivals[i]` are the callbacks that
     * arrive during the i-th sleep and `sensor` gives the raw reading of the
     * bricklet with a UID. It returns what is printed and how many ticks were
     * counted; warning and critical are accepted and ignored, as in the plugin.
     */
    method Check(uid: Option<string>, warning: Option<string>, critical: Option<string>,
                 arrivals: seq<seq<EnumerateEvent>>, sensor: Uid -> int, prog: string)
      returns (outcome: Option<Report>, ticks: nat)
      modifies this
      ensures var c := CheckOutcome(old(State()), uid, arrivals, timeout, sensor, prog);
        State() == c.reg && ticks == c.ticks && outcome == c.report
    {
      outcome, ticks := None, 0;
      if deviceType == Some(TypeTemperature) {
        var timedOut := false;
        if Truthy(uid) {
          temp := Some(uid.value);
        } else {
          timedOut, ticks := Poll(arrivals);
        }
        outcome := Some(if timedOut then TimeoutReport(prog) else TemperatureReport(sensor(temp.value), prog));
      }
    }

    /**
     * The polling loop of `check`: sleep one tick, take the callbacks of that
     * sleep, and give up once more than `timeout` ticks have passed.
     */
    method Poll(arrivals: seq<seq<EnumerateEvent>>) returns (timedOut: bool, ticks: nat)
      modifies this
      ensures var w := WaitFrom(old(State()), arrivals, 0, timeout);
        State() == w.reg && ticks == w.ticks && timedOut == w.timedOut
    {
      timedOut, ticks := false, 0;
      while temp.None?
        invariant ticks <= LastPoll(timeout)
        invariant WaitFrom(State(), arrivals, ticks, timeout) == WaitFrom(old(State()), arrivals, 0, timeout)
        decreases LastPoll(timeout) - ticks
      {
        Deliver(Batch(arrivals, ticks));
        ticks := ticks + 1;
        if ticks > timeout {
          timedOut := true;
          return;
        }
      }
    }
  }

  /** The main block: build the plugin object, connect, take the early callbacks, check. */
  method Run(host: string, port: int, secret: Option<string>, requestedType: string, uid: Option<string>,
             warning: Option<string>, critical: Option<string>, timeout: int, verbose: bool, prog: string,
             authSucceeds: bool, early: seq<EnumerateEvent>, arrivals: seq<seq<EnumerateEvent>>,
             sensor: Uid -> int)
    returns (report: Option<Report>)
    ensures report == RunOutcome(secret, requestedType, uid, timeout, prog, authSucceeds, early, arrivals, sensor)
  {
    var tf := new TF(host, port, secret, timeout, verbose);
    report := tf.Connect(requestedType, uid, authSucceeds, prog);
    if report.None? {
      tf.Deliver(early);
      var ticks;
      report, ticks := tf.Check(uid, warning, critical, arrivals, sensor, prog);
    }
  }

  // ----- What a check and a run promise -----

  /** A check prints something exactly when the device type is "temperature". */
  lemma CheckReportsOnlyTemperature(reg: Registry, uid: Option<string>, arrivals: seq<seq<EnumerateEvent>>,
                                    timeout: int, sensor: Uid -> int, prog: string)
    ensures CheckOutcome(reg, uid, arrivals, timeout, sensor, prog).report.Some? <==> reg.deviceType == Some(TypeTemperature)
    ensures reg.deviceType != Some(TypeTemperature) ==> CheckOutcome(reg, uid, arrivals, timeout, sensor, prog) == CheckResult(reg, 0, None)
  {
  }

  /** A UID given binds the handle to it without polling, and the reading comes from that bricklet. */
  lemma CheckWithUidSkipsWait(reg: Registry, uid: Option<string>, arrivals: seq<seq<EnumerateEvent>>,
                              timeout: int, sensor: Uid -> int, prog: string)
    requires reg.deviceType == Some(TypeTemperature) && Truthy(uid)
    ensures var c := CheckOutcome(reg, uid, arrivals, timeout, sensor, prog);
      c.ticks == 0 && c.reg == Registry(reg.deviceType, Some(uid.value))
      && c.report == Some(TemperatureReport(sensor(uid.value), prog))
  {
  }

  /**
   * A check that prints either reports the bound bricklet's temperature with
   * status 0, whatever the thresholds, or gives up with status 3, and it gives
   * up only when it had to wait.
   */
  lemma CheckStatusIsOkOrUnknown(reg: Registry, uid: Option<string>, arrivals: seq<seq<EnumerateEvent>>,
                                 timeout: int, sensor: Uid -> int, prog: string)
    ensures var c := CheckOutcome(reg, uid, arrivals, timeout, sensor, prog);
      c.report.Some? ==>
        || (c.report.value.exitCode == 0 && c.reg.temp.Some?
            && c.report.value == TemperatureReport(sensor(c.reg.temp.value), prog))
        || (c.report.value.exitCode == 3 && !Truthy(uid) && c.report.value == TimeoutReport(prog))
  {
  }

  /**
   * Without a UID the check gives up (status 3) exactly when nothing was
   * recorded beforehand and no callback of the first LastPoll(timeout) ticks
   * announces a temperature bricklet; it then has counted timeout + 1 ticks
   * (1 when the timeout is negative). Otherwise it reads the bricklet the first
   * successful poll found, within LastPoll(timeout) ticks.
   */
  lemma CheckWaitExact(reg: Registry, uid: Option<string>, arrivals: seq<seq<EnumerateEvent>>,
                       timeout: int, sensor: Uid -> int, prog: string)
    requires reg.deviceType == Some(TypeTemperature) && !Truthy(uid)
    ensures var c := CheckOutcome(reg, uid, arrivals, timeout, sensor, prog);
      && c.report.Some?
      && (c.report.value.exitCode == 3 <==>
            reg.temp.None? && forall i :: 0 <= i < |TraceEvents(arrivals, LastPoll(timeout))| ==>
              !Discovers(TraceEvents(arrivals, LastPoll(timeout))[i]))
      && (c.report.value.exitCode == 3 ==> c.ticks == LastPoll(timeout) + 1)
      && (c.report.value.exitCode != 3 ==>
            && c.ticks <= LastPoll(timeout)
            && c.reg == Trace(reg, arrivals, c.ticks) && c.reg.temp.Some?
            && (forall j :: 0 <= j < c.ticks ==> Trace(reg, arrivals, j).temp.None?)
            && c.report.value == TemperatureReport(sensor(c.reg.temp.value), prog))
  {
    WaitExact(reg, arrivals, timeout);
    TimeoutIffNoDiscovery(reg, arrivals, timeout);
  }

  /**
   * The temperature report's perfdata is the one key "temperature", and its
   * value reads back as the raw reading; the report has status 0.
   */
  lemma TemperatureReportPerfdata(raw: int, prog: string)
    requires '|' !in prog
    ensures var r := TemperatureReport(raw, prog);
      && r.exitCode == 0
      && StatusText(r.line) == prog + ": " + TemperatureLabel(RenderCenti(raw))
      && ParsePerfdata(r.line) == Some([("temperature", RenderCenti(raw))])
      && ParseCenti(RenderCenti(raw)) == Some(raw)
  {
    var v := RenderCenti(raw);
    RenderCentiPlain(raw);
    TemperatureLabelHasNoBar(v);
    OutputRoundTrip(TemperatureLabel(v), 0, Some([]), Some([(TypeTemperature, v)]), prog);
    assert StatusPart(prog, TemperatureLabel(v), []) == prog + ": " + TemperatureLabel(v);
    RenderCentiRoundTrip(raw);
  }

  /** The label around a value without `|` has none, and the perfdata key holds no space and no quote. */
  lemma TemperatureLabelHasNoBar(v: string)
    requires '|' !in v
    ensures '|' !in TemperatureLabel(v)
    ensures ' ' !in TypeTemperature && '\'' !in TypeTemperature
  {
    assert '|' !in "Temperature is " && '|' !in " degrees celcius";
  }

  /** The timeout report has status 3, no perfdata, and keeps the `%s` of its message unreplaced. */
  lemma TimeoutReportShape(prog: string)
    requires '|' !in prog
    ensures var r := TimeoutReport(prog);
      && r.exitCode == 3
      && r.line == prog + ": " + DetectionTimeout
      && ParsePerfdata(r.line) == Some([])
      && r.line[|prog| + 20..|prog| + 22] == "%s"
  {
    DetectionTimeoutHasNoBar();
    OutputRoundTrip(DetectionTimeout, 3, None, None, prog);
    var r := TimeoutReport(prog);
    assert r.line == prog + ": " + DetectionTimeout + "";
    assert r.line[|prog| + 2..] == DetectionTimeout;
  }

  /** A configured secret that fails to authenticate ends the run with status 3 before any enumeration. */
  lemma RunAuthenticationFailure(secret: Option<string>, requestedType: string, uid: Option<string>, timeout: int,
                                 prog: string, early: seq<EnumerateEvent>,
                                 arrivals: seq<seq<EnumerateEvent>>, sensor: Uid -> int)
    requires Truthy(secret)
    ensures RunOutcome(secret, requestedType, uid, timeout, prog, false, early, arrivals, sensor)
      == Some(Report(prog + ": " + CannotAuthenticate, 3))
  {
    var head := prog + ": " + CannotAuthenticate;
    assert StatusPart(prog, CannotAuthenticate, []) == head + "" == head;
    assert Render(prog, CannotAuthenticate, [], []) == head + "" == head;
  }

  /**
   * A temperature bricklet announced before the check replaces the requested
   * device type: the run reports that bricklet's temperature even when another
   * type was asked for, and without polling.
   */
  lemma RunFollowsEarlyDiscovery(secret: Option<string>, requestedType: string, timeout: int, prog: string,
                                 authSucceeds: bool, early: seq<EnumerateEvent>,
                                 arrivals: seq<seq<EnumerateEvent>>, sensor: Uid -> int)
    requires !Truthy(secret) || authSucceeds
    requires LastDiscovered(early).Some?
    ensures RunOutcome(secret, requestedType, None, timeout, prog, authSucceeds, early, arrivals, sensor)
      == Some(TemperatureReport(sensor(LastDiscovered(early).value), prog))
  {
    DeliverAllLastWins(Registry(Some(requestedType), None), early);
  }

  /**
   * A type other than "temperature" asked for, and no temperature bricklet
   * announced before the check: the run prints nothing (and exits with 0).
   */
  lemma RunOtherTypeIsSilent(secret: Option<string>, requestedType: string, uid: Option<string>, timeout: int,
                             prog: string, authSucceeds: bool, early: seq<EnumerateEvent>,
                             arrivals: seq<seq<EnumerateEvent>>, sensor: Uid -> int)
    requires !Truthy(secret) || authSucceeds
    requires requestedType != TypeTemperature
    requires forall i :: 0 <= i < |early| ==> !Discovers(early[i])
    ensures RunOutcome(secret, requestedType, uid, timeout, prog, authSucceeds, early, arrivals, sensor) == None
  {
    LastDiscoveredSpec(early);
    DeliverAllLastWins(Registry(Some(requestedType), None), early);
  }
}
