/**
 * The older driver of the device. Unlike the axis driver it checks the
 * connection before each command, reads a single receive into a 256-byte
 * buffer (whose unused bytes stay NUL), and cleans the reply without any
 * echo check or error classification: the command is removed wherever it
 * occurs, then every `>`, CR, LF and NUL. Its "initialised" bit is
 * PHASING_DONE (bit 25) of the status word, not HOME.
 *
 * The socket is abstracted as in the axis driver (`wire`, `inbox`); the
 * zero-byte send that probes the connection is abstracted as its outcome.
 */
module LegacyDriver {
  import opened Text
  import opened Numerals
  import opened Bits
  import opened Status
  import opened Protocol

  /** The socket error code of a send that would block. */
  const WouldBlock: int := 10035

  /**
   * The outcome of the connection probe: the error code of the zero-byte
   * send, if it raised one, and the socket's own connected flag.
   */
  datatype Probe = Probe(sendError: Option<int>, socketConnected: bool)

  /**
   * The probe's verdict: not connected without a socket; with one, the
   * socket's own flag when the send went through or would only block, and
   * not connected after any other socket error.
   */
  function ProbeVerdict(hasSocket: bool, probe: Probe): bool
  {
    if !hasSocket then false
    else match probe.sendError
      case None => probe.socketConnected
      case Some(code) => if code == WouldBlock then probe.socketConnected else false
  }

  /** Connected exactly when a socket exists, it says it is connected, and the send raised nothing or only "would block". */
  lemma ProbeVerdictExact(hasSocket: bool, probe: Probe)
    ensures ProbeVerdict(hasSocket, probe) <==>
      hasSocket && probe.socketConnected && (probe.sendError.None? || probe.sendError.value == WouldBlock)
  {
  }

  /** The receive buffer as text: the received bytes, then NULs up to 256. */
  function Padded(chunk: string): (text: string)
    requires |chunk| <= ReceiveBufferSize
    ensures |text| == ReceiveBufferSize
    ensures text[..|chunk|] == chunk
    ensures forall i :: |chunk| <= i < |text| ==> text[i] == '\0'
  {
    chunk + seq(ReceiveBufferSize - |chunk|, _ => '\0')
  }

  /** The cleaning of the whole buffer: the command removed wherever it occurs, then the control characters. */
  function LegacyCleaned(chunk: string, command: string): string
    requires |chunk| <= ReceiveBufferSize && |command| > 0
  {
    Cleaned(Padded(chunk), command)
  }

  /**
   * After the command was sent: one receive, its text padded and cleaned.
   * An empty command cannot be removed (`string.Replace` refuses it).
   */
  function LegacyReply(inbox: seq<string>, command: string): Step<string>
  {
    match Receive(inbox)
    case None => Step(Err(ReceiveFailed), inbox)
    case Some(Received(chunk, rest)) =>
      if command == [] then Step(Err(EmptyPattern), rest)
      else Step(Ok(LegacyCleaned(chunk, command)), rest)
  }

  /**
   * The reply is at most one buffer long and free of control characters;
   * it fails exactly when nothing arrives or the command is empty.
   */
  lemma LegacyReplyShape(inbox: seq<string>, command: string)
    ensures var s := LegacyReply(inbox, command);
      s.result.Ok? ==> (|s.result.value| <= ReceiveBufferSize &&
        forall i :: 0 <= i < |s.result.value| ==> s.result.value[i] !in ControlChars)
    ensures LegacyReply(inbox, command).result.Err? <==> inbox == [] || command == []
  {
  }

  /** For a command without NUL, the padding makes no difference: the reply is the cleaned received text. */
  lemma PaddingIgnored(chunk: string, command: string)
    requires |chunk| <= ReceiveBufferSize && |command| > 0 && '\0' !in command
    ensures LegacyCleaned(chunk, command) == Cleaned(chunk, command)
  {
    var pad := seq(ReceiveBufferSize - |chunk|, _ => '\0');
    assert Padded(chunk) == chunk + pad;
    assert forall i :: 0 <= i < |pad| ==> pad[i] !in command;
    RemoveAllAppendForeign(chunk, pad, command);
    StripAppend(RemoveAll(chunk, command), pad, ControlChars);
    StripAll(pad, ControlChars);
  }

  /**
   * No echo check: a reply that does not contain the command is still
   * returned, cleaned, where the axis driver's echo check rejects it.
   */
  lemma NoEchoCheck(command: string, payload: string, rest: seq<string>)
    requires PlainCommand(command) && PlainPayload(payload) && !Contains(payload, command)
    requires |payload| < ReceiveBufferSize
    ensures LegacyReply([payload + ">"] + rest, command) == Step(Ok(payload), rest)
    ensures ProcessEcho(payload + ">", command).Err? && ProcessEcho(payload + ">", command).fault.EchoMismatch?
  {
    var chunk := payload + ">";
    var inbox := [chunk] + rest;
    assert inbox[0] == chunk && inbox[1..] == rest;
    PaddingIgnored(chunk, command);
    CleanedTerminated(payload, command);
    NotContainedAfterTerminator(payload, command);
  }

  /** A payload without the command or control characters, then `>`, cleans to the payload. */
  lemma CleanedTerminated(payload: string, command: string)
    requires PlainCommand(command) && PlainPayload(payload) && !Contains(payload, command)
    ensures Cleaned(payload + ">", command) == payload
  {
    ControlForeign(command, ">");
    RemoveAllAppendForeign(payload, ">", command);
    RemoveAllAbsent(payload, command);
    StripAppend(payload, ">", ControlChars);
    StripNone(payload, ControlChars);
    StripAll(">", ControlChars);
  }

  /** A command without `>` is not in text that only adds a `>` to text without it. */
  lemma NotContainedAfterTerminator(payload: string, command: string)
    requires PlainCommand(command) && !Contains(payload, command)
    ensures !Contains(payload + ">", command)
  {
    ControlForeign(command, ">");
    ContainsAppendForeign(payload, ">", command);
  }

  /**
   * No classification: an echoed reply whose payload holds `?` or `#` is
   * returned as text, where the axis driver reports an unknown command.
   */
  lemma NoErrorMarkers(command: string, payload: string, rest: seq<string>)
    requires PlainCommand(command) && !Contains(payload, command)
    requires forall i :: 0 <= i < |payload| ==> payload[i] !in ControlChars
    requires |command| + |payload| < ReceiveBufferSize
    ensures LegacyReply([command + payload + ">"] + rest, command) == Step(Ok(payload), rest)
    ensures '?' in payload ==> ProcessEcho(command + payload + ">", command) == Err(UnknownCommand(command))
  {
    var chunk := command + payload + ">";
    var inbox := [chunk] + rest;
    assert inbox[0] == chunk && inbox[1..] == rest;
    PaddingIgnored(chunk, command);
    CleanedEchoed(command, payload, ">");
    RemoveAllAbsent(payload, command);
    StripNone(payload, ControlChars);
  }

  /** The legacy status bits: the word parsed as hexadecimal, then one bit. */
  function LegacyStatusBit(text: string, bit: nat): Result<bool>
  {
    match ParseHex32(text)
    case None => Err(ParseFailed(StatusCommandText))
    case Some(w) => Ok(Test(w, bit))
  }

  const StatusCommandText: string := "TPSR"
  const ErrorCodeCommand: string := "TE"
  const ErrorMessageCommand: string := "TES"

  /**
   * "Initialised" differs between the drivers: a word with HOME set and
   * PHASING_DONE clear is homed for the axis driver and not initialised
   * for the legacy one.
   */
  lemma InitializedBitsDiffer()
    ensures Test(2, HOME) && !Test(2, PHASING_DONE)
  {
    ZeroHasNoDigits(24);
    assert Digit(2, 25) == Digit(1, 24);
    assert Digit(1, 24) == Digit(0, 23);
  }

  /** The count of drivers constructed so far, shared by all drivers. */
  class DriverRegistry {
    var driverCount: nat

    constructor ()
      ensures driverCount == 0
    {
      driverCount := 0;
    }
  }

  class XenaxHWDriver {
    const driverName: string
    const ip: seq<int>
    const port: int
    /** Whether a socket object exists (`commandSocket != null`). */
    var hasSocket: bool
    /** The last connection verdict. */
    var connected: bool
    var wire: seq<string>
    var inbox: seq<string>

    /** Stores the name and end point, not connected; one more driver in the registry. */
    constructor (driverName: string, ip: seq<int>, port: int, registry: DriverRegistry, deliveries: seq<string>)
      modifies registry
      ensures this.driverName == driverName && this.ip == ip && this.port == port
      ensures !hasSocket && !connected && wire == [] && inbox == deliveries
      ensures registry.driverCount == old(registry.driverCount) + 1
    {
      this.driverName := driverName;
      this.ip := ip;
      this.port := port;
      hasSocket := false;
      connected := false;
      wire := [];
      inbox := deliveries;
      new;
      registry.driverCount := registry.driverCount + 1;
    }

    /**
     * Connecting: the end point is refused outside the port range before a
     * socket is made; otherwise a new socket, connected when the device
     * accepts (a refusal raises and leaves the socket unconnected). The
     * result is read through the `Connected` getter, so an accepted
     * connection reports, and stores, the probe's verdict.
     */
    method Connect(accepted: bool, probe: Probe) returns (r: Result<bool>)
      modifies this
      ensures !(0 <= port <= 65535) ==> r == Err(EndPointInvalid) && unchanged(this)
      ensures 0 <= port <= 65535 ==> hasSocket && wire == old(wire) && inbox == old(inbox)
      ensures 0 <= port <= 65535 && accepted ==> connected == ProbeVerdict(true, probe) && r == Ok(connected)
      ensures 0 <= port <= 65535 && !accepted ==> connected == old(connected) && r == Err(ConnectFailed)
    {
      if !(0 <= port <= 65535) {
        return Err(EndPointInvalid);
      }
      hasSocket := true;
      if !accepted {
        return Err(ConnectFailed);
      }
      connected := true;
      var verdict := IsConnected(probe);
      r := Ok(verdict);
    }

    /** The `Connected` getter: runs the probe, stores its verdict and returns it. */
    method IsConnected(probe: Probe) returns (c: bool)
      modifies this
      ensures c == connected == ProbeVerdict(old(hasSocket), probe)
      ensures hasSocket == old(hasSocket) && wire == old(wire) && inbox == old(inbox)
    {
      if !hasSocket {
        connected := false;
        return false;
      }
      match probe.sendError {
        case None =>
          connected := probe.socketConnected;
        case Some(code) =>
          if code == WouldBlock {
            connected := probe.socketConnected;
          } else {
            connected := false;
          }
      }
      c := connected;
    }

    /** Closes and drops the socket; always not connected afterwards, whatever the state before. */
    method Disconnect() returns (r: bool)
      modifies this
      ensures !hasSocket && !connected && r
      ensures wire == old(wire) && inbox == old(inbox)
    {
      hasSocket := false;
      connected := false;
      r := true;
    }

    /**
     * One command: refused when the probe says not connected; otherwise
     * sent, one receive read, and the reply cleaned.
     */
    method SendCommand(command: string, probe: Probe) returns (r: Result<string>)
      modifies this
      ensures connected == ProbeVerdict(old(hasSocket), probe) && hasSocket == old(hasSocket)
      ensures !connected ==> r == Err(NotConnected) && wire == old(wire) && inbox == old(inbox)
      ensures connected ==> wire == old(wire) + [Frame(command)] && Step(r, inbox) == LegacyReply(old(inbox), command)
    {
      var isConnected := IsConnected(probe);
      if !isConnected {
        return Err(NotConnected);
      }
      wire := wire + [Frame(command)];
      var received := Receive(inbox);
      if received.None? {
        return Err(ReceiveFailed);
      }
      inbox := received.value.rest;
      if command == [] {
        return Err(EmptyPattern);
      }
      var text := Padded(received.value.chunk);
      text := RemoveAll(text, command);
      r := Ok(Strip(text, ControlChars));
    }

    /** A status bit of the word read with `TPSR`. */
    method StatusBit(bit: nat, probe: Probe) returns (r: Result<bool>)
      modifies this
      ensures connected == ProbeVerdict(old(hasSocket), probe) && hasSocket == old(hasSocket)
      ensures !connected ==> r == Err(NotConnected) && wire == old(wire) && inbox == old(inbox)
      ensures connected ==> (wire == old(wire) + [Frame(StatusCommandText)] &&
        var s := LegacyReply(old(inbox), StatusCommandText);
        inbox == s.rest && r == (if s.result.Ok? then LegacyStatusBit(s.result.value, bit) else Err(s.result.fault)))
    {
      var output := SendCommand(StatusCommandText, probe);
      if output.Err? {
        return Err(output.fault);
      }
      var word := ParseHex32(output.value);
      if word.None? {
        return Err(ParseFailed(StatusCommandText));
      }
      Pow2Of32();
      var tpsr := new IntBits(word.value);
      var value := tpsr.Item(bit);
      r := Ok(value.value);
    }

    /** Initialised: bit 25, PHASING_DONE. */
    method IsDriverInitialized(probe: Probe) returns (r: Result<bool>)
      modifies this
      ensures connected == ProbeVerdict(old(hasSocket), probe) && hasSocket == old(hasSocket)
      ensures !connected ==> r == Err(NotConnected) && wire == old(wire) && inbox == old(inbox)
      ensures connected ==> (wire == old(wire) + [Frame(StatusCommandText)] &&
        var s := LegacyReply(old(inbox), StatusCommandText);
        inbox == s.rest && r == (if s.result.Ok? then LegacyStatusBit(s.result.value, PHASING_DONE) else Err(s.result.fault)))
    {
      r := StatusBit(PHASING_DONE, probe);
    }

    /** In position: bit 3. */
    method IsDriverInPosition(probe: Probe) returns (r: Result<bool>)
      modifies this
      ensures connected == ProbeVerdict(old(hasSocket), probe) && hasSocket == old(hasSocket)
      ensures !connected ==> r == Err(NotConnected) && wire == old(wire) && inbox == old(inbox)
      ensures connected ==> (wire == old(wire) + [Frame(StatusCommandText)] &&
        var s := LegacyReply(old(inbox), StatusCommandText);
        inbox == s.rest && r == (if s.result.Ok? then LegacyStatusBit(s.result.value, IN_POSITION) else Err(s.result.fault)))
    {
      r := StatusBit(IN_POSITION, probe);
    }

    /** In motion: bit 2. */
    method IsDriverInMotion(probe: Probe) returns (r: Result<bool>)
      modifies this
      ensures connected == ProbeVerdict(old(hasSocket), probe) && hasSocket == old(hasSocket)
      ensures !connected ==> r == Err(NotConnected) && wire == old(wire) && inbox == old(inbox)
      ensures connected ==> (wire == old(wire) + [Frame(StatusCommandText)] &&
        var s := LegacyReply(old(inbox), StatusCommandText);
        inbox == s.rest && r == (if s.result.Ok? then LegacyStatusBit(s.result.value, IN_MOTION) else Err(s.result.fault)))
    {
      r := StatusBit(IN_MOTION, probe);
    }

    /** The error code: `TE`, the reply parsed as a decimal integer. */
    method GetErrorCode(probe: Probe) returns (r: Result<int>)
      modifies this
      ensures connected == ProbeVerdict(old(hasSocket), probe) && hasSocket == old(hasSocket)
      ensures !connected ==> r == Err(NotConnected) && wire == old(wire) && inbox == old(inbox)
      ensures connected ==> (wire == old(wire) + [Frame(ErrorCodeCommand)] &&
        var s := LegacyReply(old(inbox), ErrorCodeCommand);
        inbox == s.rest &&
        r == (if s.result.Err? then Err(s.result.fault)
              else if ParseInt32(s.result.value).None? then Err(ParseFailed(ErrorCodeCommand))
              else Ok(ParseInt32(s.result.value).value)))
    {
      var output := SendCommand(ErrorCodeCommand, probe);
      if output.Err? {
        return Err(output.fault);
      }
      var code := ParseInt32(output.value);
      if code.None? {
        return Err(ParseFailed(ErrorCodeCommand));
      }
      r := Ok(code.value);
    }

    /** The error message: the cleaned reply to `TES`. */
    method GetErrorMessage(probe: Probe) returns (r: Result<string>)
      modifies this
      ensures connected == ProbeVerdict(old(hasSocket), probe) && hasSocket == old(hasSocket)
      ensures !connected ==> r == Err(NotConnected) && wire == old(wire) && inbox == old(inbox)
      ensures connected ==> wire == old(wire) + [Frame(ErrorMessageCommand)] && Step(r, inbox) == LegacyReply(old(inbox), ErrorMessageCommand)
    {
      r := SendCommand(ErrorMessageCommand, probe);
    }
  }
}
