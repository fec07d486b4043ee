/**
 * The terminal screen's model: an address and a port typed as text, a
 * command line, and the list of output entries. It validates the address
 * as a dotted quad, connects a legacy driver, sends the command line and
 * lists the set status flags. Message boxes are reduced to "nothing
 * changes": every failure leaves the output list as it was.
 */
module Communication {
  import opened Text
  import opened Numerals
  import opened Bits
  import opened Status
  import opened Protocol
  import opened LegacyDriver

  /** One part of the address as `Convert.ToByte`: a decimal number from 0 to 255. */
  function ParseByte(s: string): (r: Option<nat>)
    ensures r.Some? ==> r.value <= 255 && Natural(s, 10) == Some(r.value)
  {
    match Natural(s, 10)
    case Some(v) => if v <= 255 then Some(v) else None
    case None => None
  }

  /** The value of a part that is a byte, 0 for any other. */
  function ByteOf(s: string): nat
  {
    match ParseByte(s)
    case Some(v) => v
    case None => 0
  }

  /** The address bytes: exactly four parts, each a byte, read in order. */
  function ParseAddress(parts: seq<string>): (r: Option<seq<nat>>)
  {
    if |parts| == 4 && forall i :: 0 <= i < |parts| ==> ParseByte(parts[i]).Some? then
      Some(seq(|parts|, i requires 0 <= i < |parts| => ByteOf(parts[i])))
    else None
  }

  /** The parts of a dotted address: each byte in decimal. */
  function ByteTexts(bytes: seq<nat>): (texts: seq<string>)
    ensures |texts| == |bytes|
  {
    seq(|bytes|, i requires 0 <= i < |bytes| => Numeral(bytes[i], 10))
  }

  /** A dotted quad: the decimal bytes joined by `.`. */
  function DottedQuad(bytes: seq<nat>): string
  {
    Join(ByteTexts(bytes), ".")
  }

  /**
   * The accepted addresses, characterised: four parts, each a non-empty run
   * of decimal digits whose value is at most 255, giving that byte.
   */
  lemma ParseAddressExact(parts: seq<string>)
    ensures ParseAddress(parts).Some? <==>
      |parts| == 4 && forall i :: 0 <= i < |parts| ==> Natural(parts[i], 10).Some? && Natural(parts[i], 10).value <= 255
    ensures ParseAddress(parts).Some? ==> (|ParseAddress(parts).value| == 4 &&
      forall i :: 0 <= i < 4 ==> Some(ParseAddress(parts).value[i]) == Natural(parts[i], 10))
  {
  }

  /** Four bytes written as a dotted quad are read back as the same four bytes. */
  lemma AddressRoundTrip(bytes: seq<nat>)
    requires |bytes| == 4 && forall i :: 0 <= i < 4 ==> bytes[i] <= 255
    ensures ParseAddress(Split(DottedQuad(bytes), '.')) == Some(bytes)
  {
    SplitDottedQuad(bytes);
    var texts := ByteTexts(bytes);
    forall i | 0 <= i < 4
      ensures ParseByte(texts[i]) == Some(bytes[i])
    {
      NaturalNumeral(bytes[i], 10);
    }
    assert seq(4, i requires 0 <= i < 4 => ByteOf(texts[i])) == bytes;
  }

  /** Splitting a dotted quad on `.` gives back its decimal parts. */
  lemma SplitDottedQuad(bytes: seq<nat>)
    ensures |bytes| >= 1 ==> Split(DottedQuad(bytes), '.') == ByteTexts(bytes)
  {
    var texts := ByteTexts(bytes);
    forall i | 0 <= i < |texts|
      ensures '.' !in texts[i]
    {
      assert DigitValue('.', 10).None?;
    }
    if |bytes| >= 1 {
      SplitJoin(texts, '.');
    }
  }

  /** Why a connection attempt is refused before any driver is made. */
  datatype Refusal = EnterAddress | EnterPort | InvalidAddress | InvalidPort

  /** The outcome of the guards: a refusal, or the parsed end point. */
  datatype Guarded = Refused(reason: Refusal) | Accepted(address: seq<nat>, port: int)

  /** The guards of `Connect`, in order: address given, port given, address valid, port a number. */
  function ConnectGuard(ip: string, port: string): Guarded
  {
    if ip == "" then Refused(EnterAddress)
    else if port == "" then Refused(EnterPort)
    else match ParseAddress(Split(ip, '.'))
      case None => Refused(InvalidAddress)
      case Some(address) =>
        match ParseInt32(port)
        case None => Refused(InvalidPort)
        case Some(p) => Accepted(address, p)
  }

  /**
   * Earlier guards win: a missing address is reported whatever the port,
   * a missing port whatever the address text, and the address is judged
   * before the port.
   */
  lemma ConnectGuardOrder(ip: string, port: string)
    ensures ip == "" ==> ConnectGuard(ip, port) == Refused(EnterAddress)
    ensures ip != "" && port == "" ==> ConnectGuard(ip, port) == Refused(EnterPort)
    ensures ip != "" && port != "" && ParseAddress(Split(ip, '.')).None? ==> ConnectGuard(ip, port) == Refused(InvalidAddress)
    ensures ConnectGuard(ip, port).Accepted? <==>
      ip != "" && port != "" && ParseAddress(Split(ip, '.')).Some? && ParseInt32(port).Some?
    ensures ConnectGuard(ip, port).Accepted? ==>
      Some(ConnectGuard(ip, port).address) == ParseAddress(Split(ip, '.')) &&
      Some(ConnectGuard(ip, port).port) == ParseInt32(port) && IsInt32(ConnectGuard(ip, port).port)
  {
  }

  /** A dotted quad and a decimal 32-bit port pass every guard and give back the same end point. */
  lemma ConnectGuardRoundTrip(bytes: seq<nat>, port: int)
    requires |bytes| == 4 && forall i :: 0 <= i < 4 ==> bytes[i] <= 255
    requires IsInt32(port)
    ensures ConnectGuard(DottedQuad(bytes), Decimal(port)) == Accepted(bytes, port)
  {
    AddressRoundTrip(bytes);
    DecimalRoundTrip(port);
    assert DottedQuad(bytes) != "" by {
      if DottedQuad(bytes) == "" {
        JoinSplit("", '.');
      }
      SplitCount(DottedQuad(bytes), '.');
    }
    assert Decimal(port) != "";
  }

  /** The entry for a status reply: the raw text, then one line per set flag; none when the reply is not a hex word. */
  function StatusEntry(raw: string): Option<string>
  {
    match ParseHex32(raw)
    case None => None
    case Some(w) => Some("> " + raw + FlagLines(ActiveFlags(w)))
  }

  /**
   * The entry lists exactly the set flags, in bit order, after the raw text;
   * a status word written in hexadecimal gets the entry of that word.
   */
  lemma StatusEntryFlags(raw: string)
    ensures StatusEntry(raw).Some? <==> ParseHex32(raw).Some?
    ensures StatusEntry(raw).Some? ==> exists names ::
      StatusEntry(raw).value == "> " + raw + FlagLines(names) &&
      forall i :: 0 <= i < FlagCount ==> (AxisStatusNames[i] in names <==> Test(ParseHex32(raw).value, i))
  {
    if ParseHex32(raw).Some? {
      ActiveFlagsExact(ParseHex32(raw).value);
    }
  }

  /** The status word written in hexadecimal is listed with the flags of that same word. */
  lemma StatusEntryRoundTrip(w: nat)
    requires w < Word32
    ensures StatusEntry(Numeral(w, 16)) == Some("> " + Numeral(w, 16) + FlagLines(ActiveFlags(w)))
  {
    HexRoundTrip(w);
  }

  class XenaxCommunication {
    var ip: string
    var port: string
    var command: string
    var xenaxOutput: seq<string>
    var xenaxDriver: XenaxHWDriver?

    /** An empty output list and no driver. */
    constructor ()
      ensures xenaxOutput == [] && xenaxDriver == null
      ensures ip == "" && port == "" && command == ""
    {
      ip, port, command := "", "", "";
      xenaxOutput := [];
      xenaxDriver := null;
    }

    /** The bytes of the address parts, filled in one at a time; None unless there are four valid parts. */
    method ValidateIP(parts: seq<string>) returns (r: Option<seq<nat>>)
      ensures r == ParseAddress(parts)
    {
      var bytes := new nat[|parts|];
      if |parts| != 4 {
        return None;
      }
      for i := 0 to |parts|
        invariant forall j :: 0 <= j < i ==> ParseByte(parts[j]).Some? && bytes[j] == ByteOf(parts[j])
      {
        var b := ParseByte(parts[i]);
        if b.None? {
          assert !ParseByte(parts[i]).Some?;
          return None;
        }
        bytes[i] := b.value;
      }
      assert bytes[..] == seq(|parts|, i requires 0 <= i < |parts| => ByteOf(parts[i]));
      r := Some(bytes[..]);
    }

    /** Connected: false without a driver, otherwise the driver's probe verdict. */
    method IsConnected(probe: Probe) returns (c: bool)
      modifies xenaxDriver
      ensures xenaxDriver == old(xenaxDriver)
      ensures xenaxDriver == null ==> !c
      ensures xenaxDriver != null ==> (c == xenaxDriver.connected == ProbeVerdict(old(xenaxDriver.hasSocket), probe) &&
        xenaxDriver.hasSocket == old(xenaxDriver.hasSocket) && xenaxDriver.wire == old(xenaxDriver.wire) && xenaxDriver.inbox == old(xenaxDriver.inbox))
    {
      if xenaxDriver == null {
        return false;
      }
      c := xenaxDriver.IsConnected(probe);
    }

    /**
     * Runs the guards; when all pass, makes a new driver (counted in the
     * registry) for the end point and connects it. The connection's own
     * failure is reported but the new driver is kept.
     */
    method Connect(registry: DriverRegistry, accepted: bool, probe: Probe, deliveries: seq<string>) returns (r: Guarded, connected: Result<bool>)
      modifies this, registry
      ensures r == ConnectGuard(ip, port)
      ensures ip == old(ip) && port == old(port) && command == old(command) && xenaxOutput == old(xenaxOutput)
      ensures r.Refused? ==> xenaxDriver == old(xenaxDriver) && registry.driverCount == old(registry.driverCount)
      ensures r.Accepted? ==> fresh(xenaxDriver) && registry.driverCount == old(registry.driverCount) + 1
      ensures r.Accepted? ==> (xenaxDriver != null && xenaxDriver.driverName == "" && xenaxDriver.ip == r.address &&
        xenaxDriver.port == r.port && xenaxDriver.wire == [] && xenaxDriver.inbox == deliveries)
      ensures r.Accepted? && !(0 <= r.port <= 65535) ==>
        connected == Err(EndPointInvalid) && xenaxDriver != null && !xenaxDriver.hasSocket && !xenaxDriver.connected
      ensures r.Accepted? && 0 <= r.port <= 65535 ==>
        xenaxDriver != null && xenaxDriver.hasSocket && xenaxDriver.connected == (accepted && ProbeVerdict(true, probe)) &&
        connected == (if accepted then Ok(ProbeVerdict(true, probe)) else Err(ConnectFailed))
    {
      connected := Err(NotConnected);
      if ip == "" {
        return Refused(EnterAddress), connected;
      }
      if port == "" {
        return Refused(EnterPort), connected;
      }
      var address := ValidateIP(Split(ip, '.'));
      if address.None? {
        return Refused(InvalidAddress), connected;
      }
      var number := ParseInt32(port);
      if number.None? {
        return Refused(InvalidPort), connected;
      }
      var driver := new XenaxHWDriver("", address.value, number.value, registry, deliveries);
      xenaxDriver := driver;
      connected := driver.Connect(accepted, probe);
      r := Accepted(address.value, number.value);
    }

    /** Disconnects the driver, if there is one; the output list is untouched. */
    method Disconnect()
      modifies xenaxDriver
      ensures xenaxDriver == old(xenaxDriver)
      ensures xenaxDriver != null ==> (!xenaxDriver.hasSocket && !xenaxDriver.connected &&
        xenaxDriver.wire == old(xenaxDriver.wire) && xenaxDriver.inbox == old(xenaxDriver.inbox))
    {
      if xenaxDriver != null {
        var _ := xenaxDriver.Disconnect();
      }
    }

    /**
     * Sends the command line. One entry `"> " + reply` is added when the
     * driver answers; none without a driver or when the call fails.
     */
    method Send(probe: Probe)
      modifies this, xenaxDriver
      ensures xenaxDriver == old(xenaxDriver) && command == old(command) && ip == old(ip) && port == old(port)
      ensures xenaxDriver == null ==> xenaxOutput == old(xenaxOutput)
      ensures xenaxDriver != null ==> xenaxDriver.hasSocket == old(xenaxDriver.hasSocket)
      ensures xenaxDriver != null ==> xenaxDriver.connected == ProbeVerdict(old(xenaxDriver.hasSocket), probe)
      ensures xenaxDriver != null && !xenaxDriver.connected ==>
        xenaxOutput == old(xenaxOutput) && xenaxDriver.wire == old(xenaxDriver.wire) && xenaxDriver.inbox == old(xenaxDriver.inbox)
      ensures xenaxDriver != null && xenaxDriver.connected ==>
        var s := LegacyReply(old(xenaxDriver.inbox), command);
        xenaxDriver.wire == old(xenaxDriver.wire) + [Frame(command)] && xenaxDriver.inbox == s.rest &&
        xenaxOutput == old(xenaxOutput) + (if s.result.Ok? then ["> " + s.result.value] else [])
    {
      if xenaxDriver == null {
        return;
      }
      var output := xenaxDriver.SendCommand(command, probe);
      if output.Ok? {
        xenaxOutput := xenaxOutput + ["> " + output.value];
      }
    }

    /**
     * Reads the status word with `TPSR` and adds one entry: the reply, then
     * a line for each set flag in bit order. Nothing is added without a
     * driver, when the call fails, or when the reply is not a hex word.
     */
    method GetProcessStatus(probe: Probe)
      modifies this, xenaxDriver
      ensures xenaxDriver == old(xenaxDriver) && command == old(command) && ip == old(ip) && port == old(port)
      ensures xenaxDriver == null ==> xenaxOutput == old(xenaxOutput)
      ensures xenaxDriver != null ==> xenaxDriver.hasSocket == old(xenaxDriver.hasSocket)
      ensures xenaxDriver != null ==> xenaxDriver.connected == ProbeVerdict(old(xenaxDriver.hasSocket), probe)
      ensures xenaxDriver != null && !xenaxDriver.connected ==>
        xenaxOutput == old(xenaxOutput) && xenaxDriver.wire == old(xenaxDriver.wire) && xenaxDriver.inbox == old(xenaxDriver.inbox)
      ensures xenaxDriver != null && xenaxDriver.connected ==>
        var s := LegacyReply(old(xenaxDriver.inbox), StatusCommandText);
        xenaxDriver.wire == old(xenaxDriver.wire) + [Frame(StatusCommandText)] && xenaxDriver.inbox == s.rest &&
        xenaxOutput == old(xenaxOutput) + (if s.result.Ok? && StatusEntry(s.result.value).Some? then [StatusEntry(s.result.value).value] else [])
    {
      if xenaxDriver == null {
        return;
      }
      var output := xenaxDriver.SendCommand(StatusCommandText, probe);
      if output.Err? {
        return;
      }
      var word := ParseHex32(output.value);
      if word.None? {
        return;
      }
      Pow2Of32();
      var tpsr := new IntBits(word.value);
      var text := ListFlags(tpsr, output.value);
      assert "> " + text == StatusEntry(output.value).value;
      xenaxOutput := xenaxOutput + ["> " + text];
    }

    /** The foreach over the status flags: after the reply, one line per set bit, in bit order. */
    static method ListFlags(tpsr: IntBits, raw: string) returns (text: string)
      ensures text == raw + FlagLines(ActiveFlags(tpsr.bits))
    {
      text := raw;
      for i := 0 to FlagCount
        invariant text == raw + FlagLines(FlagsBelow(tpsr.bits, i))
      {
        var bit := tpsr.Item(i);
        FlagLinesStep(tpsr.bits, i);
        if bit.value {
          var line := "\r\n\t" + AxisStatusNames[i];
          AppendThree(raw, FlagLines(FlagsBelow(tpsr.bits, i)), line);
          text := text + line;
        }
      }
    }

    /** Empties the output list. */
    method ClearXenaxOutput()
      modifies this
      ensures xenaxOutput == []
      ensures xenaxDriver == old(xenaxDriver) && ip == old(ip) && port == old(port) && command == old(command)
    {
      xenaxOutput := [];
    }
  }
}
