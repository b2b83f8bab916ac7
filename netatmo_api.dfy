/**
 * The vendor API client of netatmo-api.js, reduced to what it decides:
 * validating a parsed response envelope, projecting the first device and
 * module of a thermostat read, and turning an HTTP reply into a resolved
 * or rejected promise. The HTTP call, OAuth2 and JSON.parse are not modelled:
 * a reply arrives here already received and already parsed.
 */
module NetatmoApi {
  import opened Wrappers

  /** `measured` of a thermostat module. */
  datatype Measured = Measured(temperature: real, setpointTemp: real)

  /** One entry of a device's `modules` array. */
  datatype ThermModule = ThermModule(
    id: string,               // `_id`
    measured: Measured,
    thermRelayCmd: int,       // `therm_relay_cmd`
    setpointMode: string)     // `setpoint.setpoint_mode`

  /** One entry of `body.devices`. */
  datatype Device = Device(id: string, modules: seq<ThermModule>)

  /** `body` of a read response. */
  datatype Body = Body(devices: seq<Device>)

  /**
   * A parsed response: `status` and `body` may both be absent
   * (a write response carries only a status).
   */
  datatype Envelope = Envelope(status: Option<string>, body: Option<Body>)

  /** The flat record `procesData` builds from the first device and module. */
  datatype DeviceData = DeviceData(
    deviceId: string,
    moduleId: string,
    temperature: real,
    heatingOn: bool,
    setPoint: real,
    mode: string)

  /**
   * What `procesData` does with an envelope: returns null, returns a record,
   * or throws a TypeError because `body`, `devices[0]` or `modules[0]` is missing.
   */
  datatype Extraction = NoData | Extracted(data: DeviceData) | TypeError

  /**
   * How the promise of `getThermostatState` / `setThermostat` ends: resolved,
   * rejected with a message, or never settled because an exception escaped
   * the response callback.
   */
  datatype Settled<T> = Resolved(value: T) | Rejected(reason: string) | Escaped

  /** What the HTTP layer hands to the response callback. */
  datatype HttpReply = HttpReply(
    error: Option<string>,    // transport error, null when the request completed
    statusCode: Option<nat>,  // None when there is no `response` object
    body: string,             // raw body text
    parsed: Option<Envelope>) // JSON.parse(body); None when it throws or yields null

  const StatusOk := "ok"

  /** True when the envelope carries everything `procesData` indexes without checking. */
  predicate HasFirstModule(data: Envelope)
  {
    data.body.Some? && |data.body.value.devices| > 0 && |data.body.value.devices[0].modules| > 0
  }

  /** `processAPIResponse`: null unless the status is exactly "ok", otherwise the data itself. */
  function ProcessApiResponse(data: Envelope): (r: Option<Envelope>)
    ensures r.None? <==> data.status != Some(StatusOk)
    ensures r.Some? ==> r.value == data
  {
    if data.status != Some(StatusOk) then None else Some(data)
  }

  /** `procesData`: validate, then project the first device and its first module. */
  function ProcesData(data: Envelope): (r: Extraction)
    ensures r.NoData? <==> ProcessApiResponse(data).None?
    ensures r.TypeError? <==> data.status == Some(StatusOk) && !HasFirstModule(data)
    ensures r.Extracted? ==>
      var device := data.body.value.devices[0];
      var thermostat := device.modules[0];
      && r.data.deviceId == device.id
      && r.data.moduleId == thermostat.id
      && r.data.temperature == thermostat.measured.temperature
      && r.data.setPoint == thermostat.measured.setpointTemp
      && r.data.mode == thermostat.setpointMode
      && (r.data.heatingOn <==> thermostat.thermRelayCmd != 0)
  {
    match ProcessApiResponse(data)
    case None => NoData
    case Some(valid) =>
      if valid.body.None? || |valid.body.value.devices| == 0 then TypeError
      else
        var device := valid.body.value.devices[0];
        if |device.modules| == 0 then TypeError
        else
          var thermostat := device.modules[0];
          Extracted(DeviceData(
            device.id,
            thermostat.id,
            thermostat.measured.temperature,
            thermostat.thermRelayCmd != 0,
            thermostat.measured.setpointTemp,
            thermostat.setpointMode))
  }

  /**
   * The envelope a single-thermostat account sends for a device record
   * (relay command 1 when heating, 0 when not): the partner of ProcesData.
   */
  function EnvelopeOf(d: DeviceData): Envelope
  {
    Envelope(Some(StatusOk), Some(Body([Device(d.deviceId, [
      ThermModule(d.moduleId, Measured(d.temperature, d.setPoint), if d.heatingOn then 1 else 0, d.mode)])])))
  }

  /** Extraction inverts EnvelopeOf. */
  lemma ProcesDataRoundTrip(d: DeviceData)
    ensures ProcesData(EnvelopeOf(d)) == Extracted(d)
  {
  }

  /** Only the first device and the first module are ever consulted. */
  lemma OnlyFirstDeviceAndModuleMatter(status: Option<string>, deviceId: string, m: ThermModule,
                                       otherModules: seq<ThermModule>, otherDevices: seq<Device>)
    ensures ProcesData(Envelope(status, Some(Body([Device(deviceId, [m] + otherModules)] + otherDevices))))
         == ProcesData(Envelope(status, Some(Body([Device(deviceId, [m])]))))
  {
  }

  // ---------------------------------------------------------------------------
  // Reply handling shared by getThermostatState and setThermostat
  // ---------------------------------------------------------------------------

  /** Decimal rendering of a status code, as string concatenation does in the source. */
  function NatToString(n: nat): (s: string)
    ensures |s| >= 1
    ensures forall i :: 0 <= i < |s| ==> '0' <= s[i] <= '9'
    decreases n
  {
    if n < 10 then [DigitChar(n)] else NatToString(n / 10) + [DigitChar(n % 10)]
  }

  function DigitChar(d: nat): (c: char)
    requires d < 10
    ensures '0' <= c <= '9' && c as int - '0' as int == d
  {
    ('0' as int + d) as char
  }

  /** The number a string of decimal digits denotes. */
  function DecimalValue(s: string): nat
    requires forall i :: 0 <= i < |s| ==> '0' <= s[i] <= '9'
  {
    if s == [] then 0 else DecimalValue(s[..|s| - 1]) * 10 + (s[|s| - 1] as int - '0' as int)
  }

  /** The status code can be read back from its rendering. */
  lemma {:induction false} NatToStringRoundTrip(n: nat)
    ensures DecimalValue(NatToString(n)) == n
    decreases n
  {
    if n >= 10 {
      NatToStringRoundTrip(n / 10);
      var s := NatToString(n);
      assert s[..|s| - 1] == NatToString(n / 10);
    }
  }

  /**
   * The text after "): " in a failure message: the transport error when there
   * is one, else the body when it is non-empty, else JavaScript's "null".
   */
  function FailureDetail(reply: HttpReply): (detail: string)
    ensures reply.error.Some? ==> detail == reply.error.value
    ensures reply.error.None? && reply.body != "" ==> detail == reply.body
    ensures reply.error.None? && reply.body == "" ==> detail == "null"
  {
    match reply.error
    case Some(e) => e
    case None => if reply.body != "" then reply.body else "null"
  }

  /** A reply is processed only when there is no transport error and the status code is 200. */
  predicate Processable(reply: HttpReply)
  {
    reply.error.None? && reply.statusCode == Some(200)
  }

  /**
   * The failure branch as written (netatmo-api.js:55-59 and 91-95): it reads
   * `response.statusCode` even when there is no response object, so a
   * transport error throws inside the callback instead of rejecting.
   * None stands for that exception, Some for the rejection message.
   */
  function TransportFailureAsWritten(operation: string, reply: HttpReply): (r: Option<string>)
    requires !Processable(reply)
    ensures r.None? <==> reply.statusCode.None?
    ensures reply.statusCode.Some? ==>
      r == Some(operation + " (status code " + NatToString(reply.statusCode.value) + "): " + FailureDetail(reply))
  {
    match reply.statusCode
    case None => None
    case Some(code) => Some(operation + " (status code " + NatToString(code) + "): " + FailureDetail(reply))
  }

  /**
   * The failure branch as evidently intended: every unprocessable reply
   * rejects with a message ending in the failure detail; the status code is
   * quoted only when there is a response, exactly as the source does.
   */
  function TransportFailure(operation: string, reply: HttpReply): (reason: string)
    requires !Processable(reply)
    ensures reply.statusCode.Some? ==> Some(reason) == TransportFailureAsWritten(operation, reply)
    ensures reply.statusCode.None? ==> reason == operation + ": " + FailureDetail(reply)
  {
    match reply.statusCode
    case None => operation + ": " + FailureDetail(reply)
    case Some(code) => operation + " (status code " + NatToString(code) + "): " + FailureDetail(reply)
  }

  const ReadFailure := "Error getting thermostat state"
  const NoDataFound := "No data found."
  const WriteFailure := "Setting thermostate state failed"
  const InvalidWriteResponse := "Setting thermostate state failed (invalid response)"

  /** The failure branch as written, as a settled promise: a thrown exception never settles. */
  function AsWrittenFailure<T>(operation: string, reply: HttpReply): (r: Settled<T>)
    requires !Processable(reply)
    ensures r.Escaped? <==> reply.statusCode.None?
    ensures reply.statusCode.Some? ==> r == Rejected(TransportFailureAsWritten(operation, reply).value)
  {
    match TransportFailureAsWritten(operation, reply)
    case None => Escaped
    case Some(message) => Rejected(message)
  }

  /** The 200 branch of `getThermostatState`: parse, extract, reject null data. */
  function ProcessedRead(reply: HttpReply): (r: Settled<DeviceData>)
    requires Processable(reply)
    ensures reply.parsed.None? ==> r.Escaped?
    ensures reply.parsed.Some? ==>
      match ProcesData(reply.parsed.value)
      case NoData => r == Rejected(NoDataFound)
      case TypeError => r.Escaped?
      case Extracted(d) => r == Resolved(d)
  {
    match reply.parsed
    case None => Escaped
    case Some(data) =>
      match ProcesData(data)
      case NoData => Rejected(NoDataFound)
      case TypeError => Escaped
      case Extracted(d) => Resolved(d)
  }

  /** The 200 branch of `setThermostat`: parse, validate, reject a status other than "ok". */
  function ProcessedWrite(reply: HttpReply): (r: Settled<Envelope>)
    requires Processable(reply)
    ensures reply.parsed.None? ==> r.Escaped?
    ensures reply.parsed.Some? ==>
      (r.Resolved? <==> reply.parsed.value.status == Some(StatusOk)) &&
      (r.Resolved? ==> r.value == reply.parsed.value) &&
      (!r.Resolved? ==> r == Rejected(InvalidWriteResponse))
  {
    match reply.parsed
    case None => Escaped
    case Some(data) =>
      match ProcessApiResponse(data)
      case None => Rejected(InvalidWriteResponse)
      case Some(valid) => Resolved(valid)
  }

  /**
   * The response callback of `getThermostatState` as written: a reply without
   * a response object throws (at the status-code test or in the message), so
   * the promise never settles.
   */
  function ThermostatStateReply(reply: HttpReply): (r: Settled<DeviceData>)
    ensures reply.statusCode.None? ==> r.Escaped?
    ensures !Processable(reply) && reply.statusCode.Some? ==>
      r == Rejected(ReadFailure + " (status code " + NatToString(reply.statusCode.value) + "): " + FailureDetail(reply))
    ensures Processable(reply) ==> r == ProcessedRead(reply)
  {
    if !Processable(reply) then AsWrittenFailure(ReadFailure, reply) else ProcessedRead(reply)
  }

  /** The response callback of `setThermostat` as written; same failure branch as the read. */
  function SetThermostatReply(reply: HttpReply): (r: Settled<Envelope>)
    ensures reply.statusCode.None? ==> r.Escaped?
    ensures !Processable(reply) && reply.statusCode.Some? ==>
      r == Rejected(WriteFailure + " (status code " + NatToString(reply.statusCode.value) + "): " + FailureDetail(reply))
    ensures Processable(reply) ==> r == ProcessedWrite(reply)
  {
    if !Processable(reply) then AsWrittenFailure(WriteFailure, reply) else ProcessedWrite(reply)
  }

  /** A connection failure with no response object leaves both promises unsettled. */
  lemma TransportErrorEscapes()
    ensures var failed := HttpReply(Some("Error: connect ECONNREFUSED"), None, "", None);
      ThermostatStateReply(failed).Escaped? && SetThermostatReply(failed).Escaped?
  {
  }

  /** `getThermostatState` with the corrected failure branch. */
  function ThermostatStateReplyCorrected(reply: HttpReply): (r: Settled<DeviceData>)
    ensures !Processable(reply) ==> r == Rejected(TransportFailure(ReadFailure, reply))
    ensures reply.statusCode.Some? ==> r == ThermostatStateReply(reply)
  {
    if !Processable(reply) then Rejected(TransportFailure(ReadFailure, reply)) else ProcessedRead(reply)
  }

  /** `setThermostat` with the corrected failure branch. */
  function SetThermostatReplyCorrected(reply: HttpReply): (r: Settled<Envelope>)
    ensures !Processable(reply) ==> r == Rejected(TransportFailure(WriteFailure, reply))
    ensures reply.statusCode.Some? ==> r == SetThermostatReply(reply)
  {
    if !Processable(reply) then Rejected(TransportFailure(WriteFailure, reply)) else ProcessedWrite(reply)
  }

  /**
   * With the correction every reply that is not processed settles as a
   * rejection carrying the failure detail, and nothing else changes.
   */
  lemma CorrectedRepliesSettle(reply: HttpReply)
    requires !Processable(reply)
    ensures ThermostatStateReplyCorrected(reply).Rejected?
    ensures SetThermostatReplyCorrected(reply).Rejected?
    ensures var detail := FailureDetail(reply);
      var read := ThermostatStateReplyCorrected(reply).reason;
      var write := SetThermostatReplyCorrected(reply).reason;
      && |read| >= |detail| && read[|read| - |detail|..] == detail
      && |write| >= |detail| && write[|write| - |detail|..] == detail
  {
  }

  /** Only a processable reply can resolve a read, and it resolves only with status "ok". */
  lemma ReadResolvesOnlyOnOk(reply: HttpReply)
    requires ThermostatStateReply(reply).Resolved?
    ensures Processable(reply) && reply.parsed.Some? && reply.parsed.value.status == Some(StatusOk)
    ensures ProcesData(reply.parsed.value) == Extracted(ThermostatStateReply(reply).value)
  {
  }
}
