/**
 * The rules by which the accessory in index.js changes its snapshot of the
 * thermostat, one pure function per host request. The class in module
 * Thermostat carries out these rules step by step on its fields; here they
 * are values, so that their consequences can be stated and proved.
 *
 * Characteristic values are those of the accessory host:
 * TargetHeatingCoolingState OFF 0, HEAT 1, COOL 2, AUTO 3;
 * CurrentHeatingCoolingState OFF 0, HEAT 1; TemperatureDisplayUnits CELSIUS 0.
 */
module ThermostatRules {
  import opened Wrappers
  import opened NetatmoApi

  const CurrentOff := 0
  const CurrentHeat := 1

  const TargetOff := 0
  const TargetHeat := 1
  const TargetCool := 2
  const TargetAuto := 3

  const Celsius := 0

  /** Lowest target temperature the host accepts; a refresh raises the setpoint to it. */
  const MinTarget: real := 10.0
  /** Highest setpoint the thermostat takes; setHeatingTo lowers requests to it. */
  const MaxSetpoint: real := 30.0

  /** Vendor modes the host shows as OFF, HEAT and AUTO. */
  const OffModes := {"away", "hg", "off"}
  const HeatModes := {"manual", "max"}
  const AutoModes := {"program"}

  /** Vendor modes written by the mode setters and by setHeatingTo. */
  const MaxMode := "max"
  const FrostguardMode := "hg"
  const ProgramMode := "program"
  const ManualMode := "manual"

  const UnsupportedMode := "Unsupport mode"

  /** Every field of the accessory that a host request can change. */
  datatype State = State(
    deviceId: Option<string>,
    moduleId: Option<string>,
    temperature: real,
    targetTemperature: real,
    heatingThresholdTemperature: real,
    heatingCoolingState: int,
    targetHeatingCoolingState: int,
    temperatureDisplayUnits: int,
    /** `this.TargetHeatingCoolingState`, the capitalised property index.js:104 creates */
    misspelledTargetState: Option<int>)

  /** The snapshot before the first read completes. */
  const Initial := State(None, None, 0.0, 0.0, 0.0, CurrentOff, TargetOff, Celsius, None)

  /** The parameters of one `setthermpoint` write (`setpointData`). */
  datatype SetpointRequest = SetpointRequest(
    deviceId: Option<string>,
    moduleId: Option<string>,
    temperature: Option<real>,
    mode: string)

  /**
   * What a host request leads to: the write it issues (if any), the error it
   * reports to the host's callback (None for success) and the next snapshot.
   */
  datatype Effect = Effect(request: Option<SetpointRequest>, error: Option<string>, next: State)

  /** Characteristic values the accessory can hold: current never COOL, target one of the four. */
  predicate ValidState(s: State)
  {
    s.heatingCoolingState in {CurrentOff, CurrentHeat} &&
    s.targetHeatingCoolingState in {TargetOff, TargetHeat, TargetCool, TargetAuto}
  }

  // ---------------------------------------------------------------------------
  // refreshThermostat
  // ---------------------------------------------------------------------------

  /** The switch over the vendor mode: unknown modes keep the current target state. */
  function TargetStateForMode(mode: string, current: int): (r: int)
    ensures mode in OffModes ==> r == TargetOff
    ensures mode in HeatModes ==> r == TargetHeat
    ensures mode in AutoModes ==> r == TargetAuto
    ensures mode !in OffModes + HeatModes + AutoModes ==> r == current
  {
    match mode
    case "away" => TargetOff
    case "hg" => TargetOff
    case "off" => TargetOff
    case "manual" => TargetHeat
    case "max" => TargetHeat
    case "program" => TargetAuto
    case _ => current
  }

  /** The snapshot after a read that delivered `d`. */
  function Refreshed(s: State, d: DeviceData): (r: State)
    ensures r.deviceId == Some(d.deviceId) && r.moduleId == Some(d.moduleId)
    ensures r.temperature == d.temperature
    ensures r.targetTemperature >= MinTarget
    ensures d.setPoint >= MinTarget ==> r.targetTemperature == d.setPoint
    ensures d.setPoint < MinTarget ==> r.targetTemperature == MinTarget
    ensures r.heatingThresholdTemperature == d.setPoint
    ensures r.heatingCoolingState in {CurrentOff, CurrentHeat}
    ensures r.heatingCoolingState == CurrentHeat <==> d.heatingOn
    ensures r.targetHeatingCoolingState == TargetStateForMode(d.mode, s.targetHeatingCoolingState)
    ensures r.temperatureDisplayUnits == s.temperatureDisplayUnits
    ensures r.misspelledTargetState == s.misspelledTargetState
  {
    var setPoint := d.setPoint;
    s.(deviceId := Some(d.deviceId),
       moduleId := Some(d.moduleId),
       temperature := d.temperature,
       targetTemperature := if setPoint < MinTarget then MinTarget else setPoint,
       heatingThresholdTemperature := setPoint,
       heatingCoolingState := if d.heatingOn then CurrentHeat else CurrentOff,
       targetHeatingCoolingState := TargetStateForMode(d.mode, s.targetHeatingCoolingState))
  }

  /** A refresh: a failed read (token or API rejection) changes nothing. */
  function AfterRefresh(s: State, fetched: Result<DeviceData, string>): (r: State)
    ensures fetched.Failure? ==> r == s
    ensures fetched.Success? ==> r == Refreshed(s, fetched.value)
  {
    match fetched
    case Success(d) => Refreshed(s, d)
    case Failure(_) => s
  }

  // ---------------------------------------------------------------------------
  // setHeatingMode, setFrostguardMode, setAutoMode
  // ---------------------------------------------------------------------------

  /** A mode-only write addressed to the snapshot's device and module. */
  function ModeRequest(s: State, mode: string): (q: SetpointRequest)
    ensures q.deviceId == s.deviceId && q.moduleId == s.moduleId
    ensures q.temperature.None? && q.mode == mode
  {
    SetpointRequest(s.deviceId, s.moduleId, None, mode)
  }

  /**
   * setHeatingMode: writes mode "max"; whatever the write's outcome, the
   * accessory is then HEAT/HEAT at 30 with threshold 25, and the misspelled
   * property holds HEAT.
   */
  function HeatingModeEffect(s: State): (e: Effect)
    ensures e.request == Some(ModeRequest(s, MaxMode)) && e.error.None?
    ensures e.next.targetHeatingCoolingState == TargetHeat
    ensures e.next.targetTemperature == MaxSetpoint && e.next.heatingThresholdTemperature == 25.0
    ensures e.next.heatingCoolingState == CurrentHeat
    ensures e.next.misspelledTargetState == Some(TargetHeat)
    ensures e.next.(targetHeatingCoolingState := s.targetHeatingCoolingState,
                    targetTemperature := s.targetTemperature,
                    heatingThresholdTemperature := s.heatingThresholdTemperature,
                    heatingCoolingState := s.heatingCoolingState,
                    misspelledTargetState := s.misspelledTargetState) == s
  {
    Effect(Some(ModeRequest(s, MaxMode)), None,
           s.(targetHeatingCoolingState := TargetHeat,
              targetTemperature := 30.0,
              heatingThresholdTemperature := 25.0,
              heatingCoolingState := CurrentHeat,
              misspelledTargetState := Some(TargetHeat)))
  }

  /** setFrostguardMode: writes mode "hg"; then OFF/OFF at 10 with threshold 7. */
  function FrostguardModeEffect(s: State): (e: Effect)
    ensures e.request == Some(ModeRequest(s, FrostguardMode)) && e.error.None?
    ensures e.next.targetHeatingCoolingState == TargetOff
    ensures e.next.targetTemperature == MinTarget && e.next.heatingThresholdTemperature == 7.0
    ensures e.next.heatingCoolingState == CurrentOff
    ensures e.next.(targetHeatingCoolingState := s.targetHeatingCoolingState,
                    targetTemperature := s.targetTemperature,
                    heatingThresholdTemperature := s.heatingThresholdTemperature,
                    heatingCoolingState := s.heatingCoolingState) == s
  {
    Effect(Some(ModeRequest(s, FrostguardMode)), None,
           s.(targetHeatingCoolingState := TargetOff,
              targetTemperature := 10.0,
              heatingThresholdTemperature := 7.0,
              heatingCoolingState := CurrentOff))
  }

  /** setAutoMode: writes mode "program"; then the target state is AUTO and nothing else moves. */
  function AutoModeEffect(s: State): (e: Effect)
    ensures e.request == Some(ModeRequest(s, ProgramMode)) && e.error.None?
    ensures e.next.targetHeatingCoolingState == TargetAuto
    ensures e.next.(targetHeatingCoolingState := s.targetHeatingCoolingState) == s
  {
    Effect(Some(ModeRequest(s, ProgramMode)), None, s.(targetHeatingCoolingState := TargetAuto))
  }

  // ---------------------------------------------------------------------------
  // setHeatingTo
  // ---------------------------------------------------------------------------

  /** The requested temperature lowered to the thermostat's maximum. */
  function ClampToMax(temperature: real): (t: real)
    ensures t <= MaxSetpoint
    ensures t == temperature || (temperature > MaxSetpoint && t == MaxSetpoint)
  {
    if temperature > MaxSetpoint then MaxSetpoint else temperature
  }

  /**
   * setHeatingTo: no write when the clamped value is already the target;
   * otherwise a "manual" write with the clamped value, after which target
   * and threshold both hold it and the states are HEAT/HEAT when it is at
   * least the measured temperature, else OFF/COOL.
   */
  function HeatingToEffect(s: State, temperature: real): (e: Effect)
    ensures e.error.None?
    ensures var t := ClampToMax(temperature);
      if t == s.targetTemperature then
        e.request.None? && e.next == s
      else
        && e.request == Some(SetpointRequest(s.deviceId, s.moduleId, Some(t), ManualMode))
        && e.next.targetTemperature == t && e.next.heatingThresholdTemperature == t
        && (t >= s.temperature ==>
              e.next.heatingCoolingState == CurrentHeat && e.next.targetHeatingCoolingState == TargetHeat)
        && (t < s.temperature ==>
              e.next.heatingCoolingState == CurrentOff && e.next.targetHeatingCoolingState == TargetCool)
        && e.next.(targetTemperature := s.targetTemperature,
                   heatingThresholdTemperature := s.heatingThresholdTemperature,
                   heatingCoolingState := s.heatingCoolingState,
                   targetHeatingCoolingState := s.targetHeatingCoolingState) == s
  {
    var t := ClampToMax(temperature);
    if t == s.targetTemperature then Effect(None, None, s)
    else
      var heating := t >= s.temperature;
      Effect(Some(SetpointRequest(s.deviceId, s.moduleId, Some(t), ManualMode)), None,
             s.(targetTemperature := t,
                heatingThresholdTemperature := t,
                heatingCoolingState := if heating then CurrentHeat else CurrentOff,
                targetHeatingCoolingState := if heating then TargetHeat else TargetCool))
  }

  // ---------------------------------------------------------------------------
  // setTargetHeatingCoolingState
  // ---------------------------------------------------------------------------

  /**
   * setTargetHeatingCoolingState: no-op for the current value, OFF/HEAT/AUTO
   * dispatch to the mode setters, anything else is refused with no write.
   */
  function TargetStateEffect(s: State, value: int): (e: Effect)
    ensures value == s.targetHeatingCoolingState ==> e == Effect(None, None, s)
    ensures value != s.targetHeatingCoolingState ==>
      if value == TargetOff then e == FrostguardModeEffect(s)
      else if value == TargetHeat then e == HeatingModeEffect(s)
      else if value == TargetAuto then e == AutoModeEffect(s)
      else e == Effect(None, Some(UnsupportedMode), s)
    ensures e.request.Some? <==> value != s.targetHeatingCoolingState && value in {TargetOff, TargetHeat, TargetAuto}
    ensures e.error.Some? <==> value != s.targetHeatingCoolingState && value !in {TargetOff, TargetHeat, TargetAuto}
  {
    if s.targetHeatingCoolingState == value then Effect(None, None, s)
    else if value == TargetOff then FrostguardModeEffect(s)
    else if value == TargetHeat then HeatingModeEffect(s)
    else if value == TargetAuto then AutoModeEffect(s)
    else Effect(None, Some(UnsupportedMode), s)
  }

  /** A successful mode change lands on the requested target state. */
  lemma TargetStateReached(s: State, value: int)
    requires value in {TargetOff, TargetHeat, TargetAuto}
    ensures TargetStateEffect(s, value).next.targetHeatingCoolingState == value
    ensures TargetStateEffect(s, value).error.None?
  {
  }

  /** Asking twice for the same supported target state writes once. */
  lemma TargetStateIdempotent(s: State, value: int)
    requires value in {TargetOff, TargetHeat, TargetAuto}
    ensures var first := TargetStateEffect(s, value).next;
            TargetStateEffect(first, value) == Effect(None, None, first)
  {
  }

  /** Asking twice for the same temperature writes once. */
  lemma HeatingToIdempotent(s: State, temperature: real)
    ensures var first := HeatingToEffect(s, temperature).next;
            HeatingToEffect(first, temperature) == Effect(None, None, first)
  {
  }
}
