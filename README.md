# Netatmo thermostat accessory, modelled in Dafny

This project models the core of a home-automation accessory plugin that shows a
Netatmo cloud thermostat to an accessory host (HomeKit-style characteristics).
Two parts are modelled:

- **The accessory** (`index.js`, class `NetatmoThermostat`): an object holding the
  last known thermostat snapshot (device and module identifiers, measured
  temperature, target temperature, heating-threshold temperature, current and
  target heating/cooling state, display units). Each host request updates these
  fields by fixed rules: a refresh maps vendor modes onto OFF/HEAT/AUTO and raises
  the target to at least 10; `setHeatingTo` lowers a request to at most 30 and skips
  the write when nothing changes; the three mode writes set fixed values; a request
  for an unsupported target state is refused.
- **The API client's decisions** (`netatmo-api.js`): validating a parsed response
  envelope (`status` must be `"ok"`), projecting the first device and its first
  module into a flat record, and turning an HTTP reply into a resolved or rejected
  promise with the source's message texts, or into an exception that leaves the
  promise unsettled where the source throws.

Files:

- `wrappers.dfy` — `Option` and `Result`.
- `netatmo_api.dfy` — module `NetatmoApi`: the parsed envelope as datatypes,
  `ProcessApiResponse`, `ProcesData`, the reply handling of `getThermostatState`
  and `setThermostat` as written, and a corrected variant of each (see Findings).
- `thermostat_rules.dfy` — module `ThermostatRules`: the snapshot as a value and
  one pure function per host request giving the write issued, the error reported
  and the next snapshot, with the source's promises as their contracts.
- `thermostat.dfy` — module `Thermostat`: the class `NetatmoThermostat`, whose
  methods change the fields step by step as the source does and are proved to
  produce exactly what the rule functions say.
- `host_session.dfy` — module `HostSession`: the routing of host characteristic
  events to handlers, runs of many events with invariants proved by induction,
  and end-to-end scenarios from a vendor reply to what the host is shown.

Nothing talks to the network. Each read arrives as its outcome
(`Result<DeviceData, string>`: the record or the rejection reason) and each write
as its outcome (`Result<Envelope, string>`). Characteristic values are the host's
numeric codes: target state OFF 0, HEAT 1, COOL 2, AUTO 3; current state OFF 0,
HEAT 1; display units CELSIUS 0. Temperatures are `real`.

Behaviour of the code that a reader might not expect, kept as the code has it:

- Writes change the snapshot even when they fail: the continuations passed by the
  mode setters and `setHeatingTo` ignore the failure reason, and report success to
  the host either way (`FailedWriteStillApplies`).
- Getters that refresh report no error when the read fails; they answer from the
  old snapshot (`Respond`).
- The heating threshold is copied from the vendor setpoint before the target is
  raised to 10 (`Refreshed`, `LowSetpointScenario`).
- `setHeatingMode` also writes a capitalised `TargetHeatingCoolingState` property,
  distinct from the real field (`misspelledTargetState`).
- The target temperature is not confined to [10, 30]: a refresh does not lower a
  setpoint above 30 and `setHeatingTo` does not raise a value below 10. When the
  target is above 30, setting it to itself writes 30 instead of doing nothing
  (`TargetRangeNotEnforced`).
- An `"ok"` read without a body, without devices or with a first device without
  modules makes `procesData` throw a TypeError rather than reject; the model
  records this as `TypeError` / `Escaped`, never as a resolved value.
- A reply without a response object (a connection failure) makes both response
  callbacks throw, so the read or write never settles (`TransportErrorEscapes`).
- The heating-threshold characteristic is answered by `getTargetTemperature`, so
  the host sees the raised target temperature, never the stored threshold
  (`ThresholdReadAnswersTarget`).
- `setHeatingTo` reports COOL as the target state when the new target is below the
  measured temperature, although the thermostat has no cooling mode.

## Model

| member | source | states |
|---|---|---|
| `NetatmoApi.ProcessApiResponse` | netatmo-api.js:105-111 | null exactly when `status` is not `"ok"`; otherwise the data unchanged |
| `NetatmoApi.ProcesData` | netatmo-api.js:113-130 | null exactly when `processAPIResponse` is null; throws exactly when an ok envelope lacks body, first device or first module; otherwise ids from `devices[0]` and `modules[0]`, temperature and setpoint from `measured`, mode from `setpoint_mode`, heatingOn iff the relay command is not 0 |
| `NetatmoApi.ProcesDataRoundTrip` | netatmo-api.js:118-127 | extracting the envelope of a one-device account gives back the record it was built from |
| `NetatmoApi.OnlyFirstDeviceAndModuleMatter` | netatmo-api.js:118-119 | further devices and further modules never change the extraction |
| `NetatmoApi.NatToString` | netatmo-api.js:58 | the status code in a failure message is a non-empty string of decimal digits |
| `NetatmoApi.NatToStringRoundTrip` | netatmo-api.js:58 | the status code can be read back from the message's digits |
| `NetatmoApi.FailureDetail` | netatmo-api.js:55-57 | the message detail is the transport error, else the non-empty body, else "null" |
| `NetatmoApi.TransportFailureAsWritten` | netatmo-api.js:54-60 | as written: with no response object the callback throws (None); otherwise it rejects with "… (status code N): detail" |
| `NetatmoApi.AsWrittenFailure` | netatmo-api.js:54-60 | the as-written failure branch as a promise: never settles exactly when there is no response object, otherwise rejects with the source's message |
| `NetatmoApi.TransportFailure` | netatmo-api.js:54-60 | corrected: every unprocessable reply yields a rejection message, the source's one whenever there is a response, else "…: detail" |
| `NetatmoApi.ProcessedRead` | netatmo-api.js:46-53 | for a 200 reply without transport error: null data rejects with "No data found.", a record resolves, unparsable or incomplete data throws |
| `NetatmoApi.ProcessedWrite` | netatmo-api.js:82-89 | for a 200 reply without transport error: resolves iff the status is "ok", with the envelope itself, else rejects with "… (invalid response)"; unparsable data throws |
| `NetatmoApi.ThermostatStateReply` | netatmo-api.js:44-62 | as written: no response object throws (never settles); any other reply that is not a 200 without transport error rejects with "Error getting thermostat state (status code N): detail"; a processable reply goes through `ProcessedRead` |
| `NetatmoApi.SetThermostatReply` | netatmo-api.js:80-98 | as written: no response object throws (never settles); any other reply that is not a 200 without transport error rejects with "Setting thermostate state failed (status code N): detail"; a processable reply goes through `ProcessedWrite` |
| `NetatmoApi.TransportErrorEscapes` | netatmo-api.js:58 | a connection error with no response object leaves both the read and the write unsettled |
| `NetatmoApi.ThermostatStateReplyCorrected` | netatmo-api.js:44-62 | corrected: every unprocessed reply rejects with `TransportFailure`; identical to the as-written read whenever there is a response |
| `NetatmoApi.SetThermostatReplyCorrected` | netatmo-api.js:80-98 | corrected: every unprocessed reply rejects with `TransportFailure`; identical to the as-written write whenever there is a response |
| `NetatmoApi.CorrectedRepliesSettle` | netatmo-api.js:54-60 | with the correction, every unprocessed read and write rejects, and the message ends with the failure detail |
| `NetatmoApi.ReadResolvesOnlyOnOk` | netatmo-api.js:45-53 | a resolved read came from a 200 reply without transport error whose status was "ok", and its value is the extraction |
| `ThermostatRules.TargetStateForMode` | index.js:61-76 | away/hg/off give OFF, manual/max give HEAT, program gives AUTO, any other mode keeps the current target state |
| `ThermostatRules.Refreshed` | index.js:49-83 | after a read: ids and temperature copied, target at least 10 and equal to the setpoint when that is at least 10, threshold equal to the unclamped setpoint, current HEAT iff heatingOn else OFF, target state by the mode table, units unchanged |
| `ThermostatRules.AfterRefresh` | index.js:49-87 | a rejected read changes nothing; a delivered one gives `Refreshed` |
| `ThermostatRules.ModeRequest` | index.js:93-97 | a mode write carries the snapshot's device and module ids, the mode, and no temperature |
| `ThermostatRules.HeatingModeEffect` | index.js:90-112 | writes "max"; then target HEAT, target 30, threshold 25, current HEAT, the misspelled property HEAT, all else unchanged; no error |
| `ThermostatRules.FrostguardModeEffect` | index.js:114-135 | writes "hg"; then target OFF, target 10, threshold 7, current OFF, all else unchanged; no error |
| `ThermostatRules.AutoModeEffect` | index.js:137-153 | writes "program"; then target AUTO and nothing else changes; no error |
| `ThermostatRules.ClampToMax` | index.js:156-159 | the result is at most 30 and is the request unless the request exceeded 30 |
| `ThermostatRules.HeatingToEffect` | index.js:155-194 | when the clamped value equals the target: no write, no change; otherwise a "manual" write with the ids and the clamped value, after which target and threshold hold it, states HEAT/HEAT when it is at least the measured temperature else OFF/COOL, all else unchanged; never an error |
| `ThermostatRules.TargetStateEffect` | index.js:228-255 | the current value is a no-op; OFF, HEAT, AUTO dispatch to frostguard, max, program; a write happens iff the value differs and is supported; an error iff it differs and is unsupported, and then nothing changes |
| `ThermostatRules.TargetStateReached` | index.js:237-249 | a supported target state is reached without an error |
| `ThermostatRules.TargetStateIdempotent` | index.js:231-235 | asking again for the same supported target state writes nothing |
| `ThermostatRules.HeatingToIdempotent` | index.js:161-164 | asking again for the same temperature writes nothing |
| `Thermostat.NetatmoThermostat.constructor` | index.js:12-37 | defaults (no ids, 0 degrees, OFF/OFF, Celsius) followed by the first refresh |
| `Thermostat.NetatmoThermostat.RefreshThermostat` | index.js:39-88 | the fields become `AfterRefresh` of the old fields; the callback gets null or the rejection reason |
| `Thermostat.NetatmoThermostat.SetThermostat` | index.js:196-214 | the continuation gets null iff the write resolved, else the rejection reason |
| `Thermostat.NetatmoThermostat.SetHeatingMode` | index.js:90-112 | sends and updates exactly as `HeatingModeEffect`, whatever the write's outcome |
| `Thermostat.NetatmoThermostat.SetFrostguardMode` | index.js:114-135 | sends and updates exactly as `FrostguardModeEffect`, whatever the write's outcome |
| `Thermostat.NetatmoThermostat.SetAutoMode` | index.js:137-153 | sends and updates exactly as `AutoModeEffect`, whatever the write's outcome |
| `Thermostat.NetatmoThermostat.SetHeatingTo` | index.js:155-194 | sends and updates exactly as `HeatingToEffect`, whatever the write's outcome |
| `Thermostat.NetatmoThermostat.GetCurrentHeatingCoolingState` | index.js:216-221 | refreshes, then answers the current state with no error even when the read failed |
| `Thermostat.NetatmoThermostat.GetTargetHeatingCoolingState` | index.js:223-226 | answers the stored target state, one of the four host values, without a read |
| `Thermostat.NetatmoThermostat.SetTargetHeatingCoolingState` | index.js:228-255 | write, reported error and new fields are exactly `TargetStateEffect` |
| `Thermostat.NetatmoThermostat.GetCurrentTemperature` | index.js:257-262 | refreshes, then answers the measured temperature with no error even when the read failed |
| `Thermostat.NetatmoThermostat.GetTargetTemperature` | index.js:264-269 | refreshes, then answers the target temperature with no error even when the read failed |
| `Thermostat.NetatmoThermostat.SetTargetTemperature` | index.js:271-276 | runs `setHeatingTo` and reports success whatever happened |
| `Thermostat.NetatmoThermostat.GetTemperatureDisplayUnits` | index.js:278-282 | answers the stored units with no error |
| `Thermostat.NetatmoThermostat.SetTemperatureDisplayUnits` | index.js:284-289 | stores the value verbatim and changes nothing else |
| `Thermostat.NetatmoThermostat.GetHeatingThresholdTemperature` | index.js:291-295 | answers the stored threshold with no error |
| `Thermostat.NetatmoThermostat.GetName` | index.js:297-301 | answers the configured name with no error |
| `HostSession.Respond` | index.js:311-340 | per host event: reads refresh and never report an error; only an unsupported, different target state reports one; only the two setters write; validity, identifiers (without a delivered read) and a target of at least 10 (without a set below 10) are preserved |
| `HostSession.AnswerOf` | index.js:311-340 | the value each get answers: current state and temperatures from the refreshed snapshot, target state and units from the stored ones, the name; the heating-threshold get answers the refreshed target temperature; sets answer nothing |
| `HostSession.Serve` | index.js:311-340 | routing an event to its handler yields exactly `Respond`'s write, error and snapshot, and answers exactly `AnswerOf`, so the threshold read is served by `getTargetTemperature` |
| `HostSession.ThresholdReadAnswersTarget` | index.js:334-336 | after a read with setpoint 5 the stored threshold is 5 but the host's threshold read is answered 10 |
| `HostSession.InitialIsValid` | index.js:19-26 | the initial snapshot holds valid characteristic values |
| `HostSession.RunKeepsValid` | index.js:237-253 | after any sequence of events the current state is OFF or HEAT and the target state one of OFF, HEAT, COOL, AUTO |
| `HostSession.IdentityOnlyFromReads` | index.js:50-51 | device and module ids change only through a read that delivered data |
| `HostSession.TargetStaysAtLeastMinimum` | index.js:78-81 | the target temperature stays at least 10 while the host never asks for less |
| `HostSession.ReadScenario` | index.js:49-83 | the D1/M1 reply at 18 degrees, setpoint 19, relay on, manual resolves to that record and shows HEAT/HEAT with target 19 |
| `HostSession.ErrorStatusScenario` | netatmo-api.js:45-50 | a reply with status "error" rejects with "No data found." and the snapshot is kept, with no error shown to the host |
| `HostSession.OffFromAutoScenario` | index.js:114-128 | turning an AUTO thermostat off writes "hg" and leaves target 10, threshold 7 |
| `HostSession.LowSetpointScenario` | index.js:53-81 | a vendor setpoint of 5 is shown as 10 while the threshold keeps 5 |
| `HostSession.ClampScenario` | index.js:156-164 | asking for 35 writes 30; asking for the current target (at most 30) writes nothing |
| `HostSession.TargetRangeNotEnforced` | index.js:78-81 | a read can surface 35; setting 35 again then writes 30; a set can go to 5 |
| `HostSession.FailedWriteStillApplies` | index.js:209-211 | a rejected "max" write still leaves HEAT/HEAT at 30 with threshold 25 |

## Left out

- HTTP requests (`request`), the token endpoint and the OAuth2 library (`simple-oauth2`: token creation, expiry check, refresh): calls into code that is not part of this model. Their results arrive as the outcomes passed to each method; a token failure is one more rejection reason.
- `JSON.parse` and `parseFloat`: foreign parsing. A reply carries its parsed envelope (`None` when parsing throws or yields null, both of which end in an exception); numbers are already `real`. NaN is not modelled.
- The module fields `procesData` reads (`_id`, `measured`, `therm_relay_cmd`, `setpoint`) are assumed present. A missing `measured` or `setpoint` would throw a TypeError; a missing `therm_relay_cmd` would give heatingOn true, since `undefined !== 0`.
- Rejection reasons from the token library are Error objects in the source; here every reason is a string.
- Host registration (`module.exports`), service and characteristic construction in `getServices`, and the `setCharacteristic` pushes after writes: host plumbing. Only the routing of events to handlers is kept (`HostSession.Serve`).
- Asynchrony: promise chaining and overlapping writes that are not serialised. Every handler is one atomic step; a handler whose promise never settles (an escaped exception) is not modelled as a step.
- Logging.
- `Thermostat.NetatmoThermostat.GetCurrentHeatingCoolingState`, `GetCurrentTemperature`, `GetTargetTemperature`: the host callback is called only after the read settles; a read that never settles never answers the host, which the model does not represent.

## Findings

| source | as written | input that shows it | evidently intended | confidence | as-written member | corrected member |
|---|---|---|---|---|---|---|
| netatmo-api.js:58 | the failure branch builds its message from `response.statusCode` (also at line 94), but after a transport error the HTTP library passes no response object, so the callback throws a TypeError and the promise never settles | a read or write whose connection fails: error "Error: connect ECONNREFUSED", no response | reject with the transport error so that the host's callback is answered (`TransportFailure`, used by `ThermostatStateReplyCorrected` and `SetThermostatReplyCorrected`; `CorrectedRepliesSettle` proves both always reject) | medium, not executed | `NetatmoApi.TransportErrorEscapes` | `NetatmoApi.ThermostatStateReplyCorrected` |
