/**
 * The accessory as the host sees it: the characteristic events the host
 * sends, the handler each one reaches, and what holds after any sequence of
 * them. Also the end-to-end scenarios that connect a vendor reply to what
 * the host is shown.
 */
module HostSession {
  import opened Wrappers
  import opened NetatmoApi
  import opened ThermostatRules
  import opened Thermostat

  /** One characteristic event, with the network outcome its handler will meet. */
  datatype HostRequest =
    | GetCurrentState(fetched: Result<DeviceData, string>)
    | GetTargetState
    | SetTargetState(value: int, outcome: Result<Envelope, string>)
    | GetCurrentTemperature(fetched: Result<DeviceData, string>)
    | GetTargetTemperature(fetched: Result<DeviceData, string>)
    | SetTargetTemperature(temperature: real, outcome: Result<Envelope, string>)
    | GetUnits
    | SetUnits(units: int)
    | GetThreshold(fetched: Result<DeviceData, string>)
    | GetName

  /** The read this event performs, if any: the getters that refresh first. */
  function ReadOf(r: HostRequest): Option<Result<DeviceData, string>>
  {
    match r
    case GetCurrentState(f) => Some(f)
    case GetCurrentTemperature(f) => Some(f)
    case GetTargetTemperature(f) => Some(f)
    case GetThreshold(f) => Some(f)
    case _ => None
  }

  /** True when the event performs a read that delivers data. */
  predicate DeliversData(r: HostRequest)
  {
    ReadOf(r).Some? && ReadOf(r).value.Success?
  }

  /**
   * The write, the error and the next snapshot for one event. Reads never
   * report an error, even when the read was rejected; only an unsupported
   * target state does.
   */
  function Respond(s: State, r: HostRequest): (e: Effect)
    ensures ReadOf(r).Some? ==> e == Effect(None, None, AfterRefresh(s, ReadOf(r).value))
    ensures e.error.Some? <==>
      r.SetTargetState? && r.value != s.targetHeatingCoolingState && r.value !in {TargetOff, TargetHeat, TargetAuto}
    ensures e.request.Some? ==> r.SetTargetState? || r.SetTargetTemperature?
    ensures ValidState(s) ==> ValidState(e.next)
    ensures !DeliversData(r) ==> e.next.deviceId == s.deviceId && e.next.moduleId == s.moduleId
    ensures s.targetTemperature >= MinTarget && (r.SetTargetTemperature? ==> r.temperature >= MinTarget)
            ==> e.next.targetTemperature >= MinTarget
  {
    match r
    case GetCurrentState(f) => Effect(None, None, AfterRefresh(s, f))
    case GetTargetState => Effect(None, None, s)
    case SetTargetState(v, _) => TargetStateEffect(s, v)
    case GetCurrentTemperature(f) => Effect(None, None, AfterRefresh(s, f))
    case GetTargetTemperature(f) => Effect(None, None, AfterRefresh(s, f))
    case SetTargetTemperature(t, _) => HeatingToEffect(s, t)
    case GetUnits => Effect(None, None, s)
    case SetUnits(u) => Effect(None, None, s.(temperatureDisplayUnits := u))
    case GetThreshold(f) => Effect(None, None, AfterRefresh(s, f))
    case GetName => Effect(None, None, s)
  }

  /** The value a get answers the host with. */
  datatype Answer = Temperature(degrees: real) | Code(code: int) | Text(text: string)

  /**
   * The value each get answers, read from the snapshot after its refresh.
   * The heating-threshold read is wired to getTargetTemperature, so it
   * answers the (raised) target temperature, not the stored threshold.
   */
  function AnswerOf(name: string, s: State, r: HostRequest): (a: Option<Answer>)
    ensures var next := Respond(s, r).next;
      && (r.GetCurrentState? ==> a == Some(Code(next.heatingCoolingState)))
      && (r.GetTargetState? ==> a == Some(Code(s.targetHeatingCoolingState)))
      && (r.GetCurrentTemperature? ==> a == Some(Temperature(next.temperature)))
      && (r.GetTargetTemperature? ==> a == Some(Temperature(next.targetTemperature)))
      && (r.GetThreshold? ==> a == Some(Temperature(next.targetTemperature)))
      && (r.GetUnits? ==> a == Some(Code(s.temperatureDisplayUnits)))
      && (r.GetName? ==> a == Some(Text(name)))
    ensures a.None? <==> r.SetTargetState? || r.SetTargetTemperature? || r.SetUnits?
  {
    match r
    case GetCurrentState(f) => Some(Code(AfterRefresh(s, f).heatingCoolingState))
    case GetTargetState => Some(Code(s.targetHeatingCoolingState))
    case GetCurrentTemperature(f) => Some(Temperature(AfterRefresh(s, f).temperature))
    case GetTargetTemperature(f) => Some(Temperature(AfterRefresh(s, f).targetTemperature))
    case GetThreshold(f) => Some(Temperature(AfterRefresh(s, f).targetTemperature))
    case GetUnits => Some(Code(s.temperatureDisplayUnits))
    case GetName => Some(Text(name))
    case _ => None
  }

  /**
   * The threshold the host reads is not the stored threshold: after a read
   * with setpoint 5 the stored threshold is 5 but the host is answered 10.
   */
  lemma ThresholdReadAnswersTarget(name: string, s: State)
    ensures var f := Success(DeviceData("D1", "M1", 18.0, false, 5.0, "hg"));
      && Respond(s, GetThreshold(f)).next.heatingThresholdTemperature == 5.0
      && AnswerOf(name, s, GetThreshold(f)) == Some(Temperature(10.0))
  {
  }

  /** The snapshot after serving `rs` in order, starting from `s`. */
  function Run(s: State, rs: seq<HostRequest>): State
    decreases |rs|
  {
    if rs == [] then s else Respond(Run(s, rs[..|rs| - 1]), rs[|rs| - 1]).next
  }

  /**
   * Routes an event to its handler, as the accessory's service wiring does
   * (the heating-threshold read goes to getTargetTemperature).
   */
  method Serve(t: NetatmoThermostat, r: HostRequest)
    returns (sent: Option<SetpointRequest>, error: Option<string>, answer: Option<Answer>)
    requires t.Valid()
    modifies t
    ensures t.Valid()
    ensures Effect(sent, error, t.Snapshot()) == Respond(old(t.Snapshot()), r)
    ensures answer == AnswerOf(t.name, old(t.Snapshot()), r)
  {
    sent, answer := None, None;
    match r {
      case GetCurrentState(f) =>
        var value;
        error, value := t.GetCurrentHeatingCoolingState(f);
        answer := Some(Code(value));
      case GetTargetState =>
        var value;
        error, value := t.GetTargetHeatingCoolingState();
        answer := Some(Code(value));
      case SetTargetState(v, outcome) =>
        sent, error := t.SetTargetHeatingCoolingState(v, outcome);
      case GetCurrentTemperature(f) =>
        var value;
        error, value := t.GetCurrentTemperature(f);
        answer := Some(Temperature(value));
      case GetTargetTemperature(f) =>
        var value;
        error, value := t.GetTargetTemperature(f);
        answer := Some(Temperature(value));
      case SetTargetTemperature(temperature, outcome) =>
        sent, error := t.SetTargetTemperature(temperature, outcome);
      case GetUnits =>
        var value;
        error, value := t.GetTemperatureDisplayUnits();
        answer := Some(Code(value));
      case SetUnits(u) =>
        error := t.SetTemperatureDisplayUnits(u);
      case GetThreshold(f) =>
        var value;
        error, value := t.GetTargetTemperature(f);
        answer := Some(Temperature(value));
      case GetName =>
        var value;
        error, value := t.GetName();
        answer := Some(Text(value));
    }
  }

  // ---------------------------------------------------------------------------
  // What holds after any sequence of events
  // ---------------------------------------------------------------------------

  /** The accessory starts with valid characteristic values. */
  lemma InitialIsValid()
    ensures ValidState(Initial)
  {
  }

  /** No sequence of events puts COOL into the current state or an unknown value into the target state. */
  lemma {:induction false} RunKeepsValid(s: State, rs: seq<HostRequest>)
    requires ValidState(s)
    ensures ValidState(Run(s, rs))
    decreases |rs|
  {
    if rs != [] {
      RunKeepsValid(s, rs[..|rs| - 1]);
    }
  }

  /** Device and module identifiers change only through a read that delivered data. */
  lemma {:induction false} IdentityOnlyFromReads(s: State, rs: seq<HostRequest>)
    requires forall i :: 0 <= i < |rs| ==> !DeliversData(rs[i])
    ensures Run(s, rs).deviceId == s.deviceId && Run(s, rs).moduleId == s.moduleId
    decreases |rs|
  {
    if rs != [] {
      IdentityOnlyFromReads(s, rs[..|rs| - 1]);
    }
  }

  /**
   * The target temperature never drops below 10 as long as the host never
   * asks for less (which the host's own minimum of 10 ensures).
   */
  lemma {:induction false} TargetStaysAtLeastMinimum(s: State, rs: seq<HostRequest>)
    requires s.targetTemperature >= MinTarget
    requires forall i :: 0 <= i < |rs| && rs[i].SetTargetTemperature? ==> rs[i].temperature >= MinTarget
    ensures Run(s, rs).targetTemperature >= MinTarget
    decreases |rs|
  {
    if rs != [] {
      TargetStaysAtLeastMinimum(s, rs[..|rs| - 1]);
    }
  }

  // ---------------------------------------------------------------------------
  // Scenarios
  // ---------------------------------------------------------------------------

  const ScenarioModule := ThermModule("M1", Measured(18.0, 19.0), 1, "manual")
  const ScenarioEnvelope := Envelope(Some("ok"), Some(Body([Device("D1", [ScenarioModule])])))

  /**
   * A read answered with one device D1 and module M1 at 18 degrees, setpoint
   * 19, relay on, mode "manual" yields that record, and the host is then
   * shown HEAT/HEAT with target 19, from whatever snapshot it started.
   */
  lemma ReadScenario(s: State)
    ensures ThermostatStateReply(HttpReply(None, Some(200), "{...}", Some(ScenarioEnvelope)))
         == Resolved(DeviceData("D1", "M1", 18.0, true, 19.0, "manual"))
    ensures var next := AfterRefresh(s, Success(DeviceData("D1", "M1", 18.0, true, 19.0, "manual")));
      && next.heatingCoolingState == CurrentHeat
      && next.targetHeatingCoolingState == TargetHeat
      && next.targetTemperature == 19.0
      && next.deviceId == Some("D1") && next.moduleId == Some("M1")
  {
  }

  /** A read answered with status "error" is rejected, and the snapshot is kept. */
  lemma ErrorStatusScenario(s: State, body: string)
    ensures ThermostatStateReply(HttpReply(None, Some(200), body, Some(Envelope(Some("error"), None))))
         == Rejected(NoDataFound)
    ensures AfterRefresh(s, Failure(NoDataFound)) == s
    ensures Respond(s, GetTargetTemperature(Failure(NoDataFound))) == Effect(None, None, s)
  {
  }

  /** Turning an AUTO thermostat off writes frostguard and leaves 10 with threshold 7. */
  lemma OffFromAutoScenario(s: State, outcome: Result<Envelope, string>)
    requires s.targetHeatingCoolingState == TargetAuto
    ensures var e := Respond(s, SetTargetState(TargetOff, outcome));
      && e.request == Some(SetpointRequest(s.deviceId, s.moduleId, None, "hg"))
      && e.next.targetTemperature == 10.0 && e.next.heatingThresholdTemperature == 7.0
  {
  }

  /** A vendor setpoint of 5 is shown as 10, while the threshold keeps 5. */
  lemma LowSetpointScenario(s: State)
    ensures var next := Refreshed(s, DeviceData("D1", "M1", 18.0, false, 5.0, "hg"));
      next.targetTemperature == 10.0 && next.heatingThresholdTemperature == 5.0
  {
  }

  /** Asking for 35 writes 30; asking for the current target writes nothing. */
  lemma ClampScenario(s: State)
    requires s.targetTemperature < 30.0
    ensures HeatingToEffect(s, 35.0).request == Some(SetpointRequest(s.deviceId, s.moduleId, Some(30.0), "manual"))
    ensures HeatingToEffect(s, s.targetTemperature) == Effect(None, None, s)
  {
  }

  /**
   * The target temperature is not confined to [10, 30]: a read can surface a
   * setpoint above 30, and a direct set can go below 10. Once the target is
   * above 30, setting it to itself is no longer a no-op: it writes 30.
   */
  lemma TargetRangeNotEnforced(s: State)
    requires s.targetTemperature != 5.0
    ensures var high := Refreshed(s, DeviceData("D1", "M1", 18.0, true, 35.0, "manual"));
      && high.targetTemperature == 35.0
      && HeatingToEffect(high, 35.0).request == Some(SetpointRequest(Some("D1"), Some("M1"), Some(30.0), "manual"))
    ensures HeatingToEffect(s, 5.0).next.targetTemperature == 5.0
  {
  }

  /** A write that fails still leaves the accessory as if it had succeeded. */
  method FailedWriteStillApplies(t: NetatmoThermostat)
    requires t.Valid() && t.targetHeatingCoolingState == TargetAuto
    modifies t
    ensures t.targetHeatingCoolingState == TargetHeat && t.targetTemperature == 30.0
    ensures t.heatingThresholdTemperature == 25.0 && t.heatingCoolingState == CurrentHeat
  {
    var sent, error := t.SetTargetHeatingCoolingState(TargetHeat, Failure("Setting thermostate state failed (invalid response)"));
    assert error.None?;
  }
}
