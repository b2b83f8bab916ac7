/**
 * The accessory class of index.js. Its fields are the thermostat snapshot the
 * host reads; each host request updates them in place. Network reads and
 * writes do not run here: each method receives the outcome the network would
 * have delivered (a read's data or rejection reason, a write's resolved
 * envelope or rejection reason) and does what the source does with it.
 */
module Thermostat {
  import opened Wrappers
  import opened NetatmoApi
  import opened ThermostatRules

  class NetatmoThermostat {
    const name: string
    var deviceId: Option<string>
    var moduleId: Option<string>
    var temperatureDisplayUnits: int
    var temperature: real
    var targetTemperature: real
    var heatingThresholdTemperature: real
    var heatingCoolingState: int
    var targetHeatingCoolingState: int
    /** The capitalised `TargetHeatingCoolingState` property written only by setHeatingMode. */
    var misspelledTargetState: Option<int>

    /** The fields as one value, for comparison with the rules. */
    function Snapshot(): State
      reads this
    {
      State(deviceId, moduleId, temperature, targetTemperature, heatingThresholdTemperature,
            heatingCoolingState, targetHeatingCoolingState, temperatureDisplayUnits,
            misspelledTargetState)
    }

    /** The object invariant: characteristic values stay within the host's enumerations. */
    ghost predicate Valid()
      reads this
    {
      ValidState(Snapshot())
    }

    /** Sets the defaults, then performs the first refresh with the read's outcome. */
    constructor (name: string, initialRead: Result<DeviceData, string>)
      ensures this.name == name
      ensures Snapshot() == AfterRefresh(Initial, initialRead)
      ensures Valid()
    {
      this.name := name;
      deviceId := None;
      moduleId := None;
      temperatureDisplayUnits := Celsius;
      temperature := 0.0;
      targetTemperature := 0.0;
      heatingThresholdTemperature := 0.0;
      heatingCoolingState := CurrentOff;
      targetHeatingCoolingState := TargetOff;
      misspelledTargetState := None;
      new;
      var _ := RefreshThermostat(initialRead);
    }

    /**
     * refreshThermostat: on a successful read copy the data, map the vendor
     * mode and raise the target to at least 10; on a rejection change
     * nothing. The callback receives null or the rejection reason.
     */
    method RefreshThermostat(fetched: Result<DeviceData, string>) returns (error: Option<string>)
      requires Valid()
      modifies this
      ensures Valid()
      ensures error == if fetched.Success? then None else Some(fetched.error)
      ensures Snapshot() == AfterRefresh(old(Snapshot()), fetched)
    {
      match fetched
      case Failure(reason) =>
        error := Some(reason);
      case Success(data) =>
        deviceId := Some(data.deviceId);
        moduleId := Some(data.moduleId);
        temperature := data.temperature;
        targetTemperature := data.setPoint;
        heatingThresholdTemperature := targetTemperature;
        if data.heatingOn {
          heatingCoolingState := CurrentHeat;
        } else {
          heatingCoolingState := CurrentOff;
        }
        match data.mode {
          case "away" => targetHeatingCoolingState := TargetOff;
          case "hg" => targetHeatingCoolingState := TargetOff;
          case "off" => targetHeatingCoolingState := TargetOff;
          case "manual" => targetHeatingCoolingState := TargetHeat;
          case "max" => targetHeatingCoolingState := TargetHeat;
          case "program" => targetHeatingCoolingState := TargetAuto;
          case _ =>
        }
        if targetTemperature < MinTarget {
          targetTemperature := MinTarget;
        }
        error := None;
    }

    /**
     * setThermostat: sends `request` and hands the write's outcome to the
     * continuation: null when it resolved, the reason when it was rejected.
     */
    method SetThermostat(request: SetpointRequest, outcome: Result<Envelope, string>)
      returns (reason: Option<string>)
      ensures reason.None? <==> outcome.Success?
      ensures outcome.Failure? ==> reason == Some(outcome.error)
    {
      match outcome
      case Success(_) => reason := None;
      case Failure(e) => reason := Some(e);
    }

    /** setHeatingMode: the continuation ignores the write's outcome. */
    method SetHeatingMode(writeOutcome: Result<Envelope, string>) returns (sent: SetpointRequest)
      requires Valid()
      modifies this
      ensures Valid()
      ensures Effect(Some(sent), None, Snapshot()) == HeatingModeEffect(old(Snapshot()))
    {
      sent := SetpointRequest(deviceId, moduleId, None, MaxMode);
      var _ := SetThermostat(sent, writeOutcome);
      targetHeatingCoolingState := TargetHeat;
      targetTemperature := 30.0;
      heatingThresholdTemperature := 25.0;
      heatingCoolingState := CurrentHeat;
      misspelledTargetState := Some(TargetHeat);
    }

    /** setFrostguardMode: the continuation ignores the write's outcome. */
    method SetFrostguardMode(writeOutcome: Result<Envelope, string>) returns (sent: SetpointRequest)
      requires Valid()
      modifies this
      ensures Valid()
      ensures Effect(Some(sent), None, Snapshot()) == FrostguardModeEffect(old(Snapshot()))
    {
      sent := SetpointRequest(deviceId, moduleId, None, FrostguardMode);
      var _ := SetThermostat(sent, writeOutcome);
      targetHeatingCoolingState := TargetOff;
      targetTemperature := 10.0;
      heatingThresholdTemperature := 7.0;
      heatingCoolingState := CurrentOff;
    }

    /** setAutoMode: the continuation ignores the write's outcome. */
    method SetAutoMode(writeOutcome: Result<Envelope, string>) returns (sent: SetpointRequest)
      requires Valid()
      modifies this
      ensures Valid()
      ensures Effect(Some(sent), None, Snapshot()) == AutoModeEffect(old(Snapshot()))
    {
      sent := SetpointRequest(deviceId, moduleId, None, ProgramMode);
      var _ := SetThermostat(sent, writeOutcome);
      targetHeatingCoolingState := TargetAuto;
    }

    /**
     * setHeatingTo: clamp, skip the write when nothing changes, otherwise
     * write "manual" and update the fields whatever the write's outcome.
     */
    method SetHeatingTo(temperature: real, writeOutcome: Result<Envelope, string>)
      returns (sent: Option<SetpointRequest>)
      requires Valid()
      modifies this
      ensures Valid()
      ensures Effect(sent, None, Snapshot()) == HeatingToEffect(old(Snapshot()), temperature)
    {
      var t := temperature;
      if t > 30.0 {
        t := 30.0;
      }
      if t == targetTemperature {
        return None;
      }
      var request := SetpointRequest(deviceId, moduleId, Some(t), ManualMode);
      var _ := SetThermostat(request, writeOutcome);
      targetTemperature := t;
      heatingThresholdTemperature := t;
      if t >= this.temperature {
        heatingCoolingState := CurrentHeat;
        targetHeatingCoolingState := TargetHeat;
      } else {
        heatingCoolingState := CurrentOff;
        targetHeatingCoolingState := TargetCool;
      }
      sent := Some(request);
    }

    /** getCurrentHeatingCoolingState: refresh, then answer from the snapshot, never with an error. */
    method GetCurrentHeatingCoolingState(fetched: Result<DeviceData, string>)
      returns (error: Option<string>, value: int)
      requires Valid()
      modifies this
      ensures Valid()
      ensures Snapshot() == AfterRefresh(old(Snapshot()), fetched)
      ensures error.None? && value == heatingCoolingState
    {
      var _ := RefreshThermostat(fetched);
      error, value := None, heatingCoolingState;
    }

    /** getTargetHeatingCoolingState: answers from the snapshot without a read. */
    method GetTargetHeatingCoolingState() returns (error: Option<string>, value: int)
      requires Valid()
      ensures error.None? && value == targetHeatingCoolingState
      ensures value in {TargetOff, TargetHeat, TargetCool, TargetAuto}
    {
      error, value := None, targetHeatingCoolingState;
    }

    /** setTargetHeatingCoolingState: the no-op rule, then dispatch or refusal. */
    method SetTargetHeatingCoolingState(value: int, writeOutcome: Result<Envelope, string>)
      returns (sent: Option<SetpointRequest>, error: Option<string>)
      requires Valid()
      modifies this
      ensures Valid()
      ensures Effect(sent, error, Snapshot()) == TargetStateEffect(old(Snapshot()), value)
    {
      if targetHeatingCoolingState == value {
        return None, None;
      }
      if value == TargetOff {
        var request := SetFrostguardMode(writeOutcome);
        sent, error := Some(request), None;
      } else if value == TargetHeat {
        var request := SetHeatingMode(writeOutcome);
        sent, error := Some(request), None;
      } else if value == TargetAuto {
        var request := SetAutoMode(writeOutcome);
        sent, error := Some(request), None;
      } else {
        sent, error := None, Some(UnsupportedMode);
      }
    }

    /** getCurrentTemperature: refresh, then answer from the snapshot, never with an error. */
    method GetCurrentTemperature(fetched: Result<DeviceData, string>) returns (error: Option<string>, value: real)
      requires Valid()
      modifies this
      ensures Valid()
      ensures Snapshot() == AfterRefresh(old(Snapshot()), fetched)
      ensures error.None? && value == temperature
    {
      var _ := RefreshThermostat(fetched);
      error, value := None, temperature;
    }

    /** getTargetTemperature: refresh, then answer from the snapshot, never with an error. */
    method GetTargetTemperature(fetched: Result<DeviceData, string>) returns (error: Option<string>, value: real)
      requires Valid()
      modifies this
      ensures Valid()
      ensures Snapshot() == AfterRefresh(old(Snapshot()), fetched)
      ensures error.None? && value == targetTemperature
    {
      var _ := RefreshThermostat(fetched);
      error, value := None, targetTemperature;
    }

    /** setTargetTemperature: setHeatingTo, then report success whatever happened. */
    method SetTargetTemperature(value: real, writeOutcome: Result<Envelope, string>)
      returns (sent: Option<SetpointRequest>, error: Option<string>)
      requires Valid()
      modifies this
      ensures Valid()
      ensures Effect(sent, error, Snapshot()) == HeatingToEffect(old(Snapshot()), value)
    {
      sent := SetHeatingTo(value, writeOutcome);
      error := None;
    }

    method GetTemperatureDisplayUnits() returns (error: Option<string>, value: int)
      ensures error.None? && value == temperatureDisplayUnits
    {
      error, value := None, temperatureDisplayUnits;
    }

    /** setTemperatureDisplayUnits: stores the value as given, no conversion. */
    method SetTemperatureDisplayUnits(value: int) returns (error: Option<string>)
      requires Valid()
      modifies this
      ensures Valid()
      ensures error.None?
      ensures Snapshot() == old(Snapshot()).(temperatureDisplayUnits := value)
    {
      temperatureDisplayUnits := value;
      error := None;
    }

    method GetHeatingThresholdTemperature() returns (error: Option<string>, value: real)
      ensures error.None? && value == heatingThresholdTemperature
    {
      error, value := None, heatingThresholdTemperature;
    }

    method GetName() returns (error: Option<string>, value: string)
      ensures error.None? && value == name
    {
      error, value := None, name;
    }
  }
}
