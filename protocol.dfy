/**
 * The command/response channel to the device. A command is sent followed by
 * one carriage return; the reply is read chunk by chunk (each receive fills
 * at most a 256-byte buffer) until a chunk containing the terminator `>`
 * arrives. The reply must contain the echoed command; the echo and the
 * control characters `>`, CR, LF and NUL are removed, and the rest is the
 * payload unless it carries an error marker: `?` (command not recognised)
 * or `#<code>` (command cannot be accepted now, with a device status code).
 *
 * The socket is abstracted as `inbox`, the sequence of what successive
 * receive calls would deliver; a receive on an empty inbox fails, as a
 * receive does when its timeout expires.
 */
module Protocol {
  import opened Text
  import opened Numerals

  datatype Fault =
    | EchoMismatch(sent: string, received: string)
    | UnknownCommand(command: string)
    | DeviceBusy(command: string, status: int)
    | EmptyPattern
    | ReceiveFailed
    | ParseFailed(command: string)
    | StatusFault(flags: seq<string>)
    | TimedOut
    | Cancelled
    | NotConnected
    | EndPointInvalid
    | ConnectFailed

  datatype Result<T> = Ok(value: T) | Err(fault: Fault)

  const ReceiveBufferSize: nat := 256
  const Terminator: char := '>'
  const ControlChars: set<char> := {'>', '\r', '\n', '\0'}

  /** What goes on the wire for a command: the command and one carriage return. */
  function Frame(command: string): string
  {
    command + "\r"
  }

  /** Characters still to be delivered, plus one per pending receive. */
  function Pending(inbox: seq<string>): nat
    decreases |inbox|
  {
    if inbox == [] then 0 else |inbox[0]| + 1 + Pending(inbox[1..])
  }

  datatype Received = Received(chunk: string, rest: seq<string>)

  /**
   * One receive into the 256-byte buffer: the next delivery, cut at the
   * buffer size with the remainder left for the next receive. None when
   * nothing arrives.
   */
  function Receive(inbox: seq<string>): (r: Option<Received>)
    ensures r.None? <==> inbox == []
    ensures r.Some? ==> |r.value.chunk| <= ReceiveBufferSize && Pending(r.value.rest) < Pending(inbox)
  {
    if inbox == [] then None
    else if |inbox[0]| <= ReceiveBufferSize then Some(Received(inbox[0], inbox[1..]))
    else
      var rest := [inbox[0][ReceiveBufferSize..]] + inbox[1..];
      assert rest[1..] == inbox[1..];
      Some(Received(inbox[0][..ReceiveBufferSize], rest))
  }

  /** The accumulated reply of one command and what is left to receive. */
  datatype Reply = Reply(raw: Result<string>, rest: seq<string>)

  function Prepend(prefix: string, r: Reply): Reply
  {
    if r.raw.Ok? then Reply(Ok(prefix + r.raw.value), r.rest) else r
  }

  /** Prepending twice is prepending the concatenation. */
  lemma PrependTwice(a: string, b: string, r: Reply)
    ensures Prepend(a, Prepend(b, r)) == Prepend(a + b, r)
  {
    if r.raw.Ok? {
      assert a + (b + r.raw.value) == (a + b) + r.raw.value;
    }
  }

  /**
   * The receive loop: chunks are appended until a chunk that itself
   * contains the terminator; a failed receive fails the whole reply.
   */
  function Collect(inbox: seq<string>): (r: Reply)
    ensures r.raw.Ok? ==> Terminator in r.raw.value && Pending(r.rest) < Pending(inbox)
    ensures r.raw.Err? ==> r.raw.fault == ReceiveFailed && r.rest == []
    decreases Pending(inbox)
  {
    match Receive(inbox)
    case None => Reply(Err(ReceiveFailed), [])
    case Some(Received(chunk, rest)) =>
      if Terminator in chunk then Reply(Ok(chunk), rest)
      else Prepend(chunk, Collect(rest))
  }

  function Concat(chunks: seq<string>): string
  {
    if chunks == [] then "" else chunks[0] + Concat(chunks[1..])
  }

  /**
   * With chunks that fit the buffer, the reply is every chunk up to and
   * including the first that contains the terminator, concatenated; later
   * deliveries are not touched.
   */
  lemma {:induction false} CollectChunks(before: seq<string>, last: string, after: seq<string>)
    requires forall i :: 0 <= i < |before| ==> |before[i]| <= ReceiveBufferSize && Terminator !in before[i]
    requires |last| <= ReceiveBufferSize && Terminator in last
    ensures Collect(before + [last] + after) == Reply(Ok(Concat(before) + last), after)
    decreases |before|
  {
    var inbox := before + [last] + after;
    if before == [] {
      assert inbox == [last] + after;
      assert inbox[1..] == after;
      assert Concat(before) + last == last;
    } else {
      assert inbox[0] == before[0];
      assert inbox[1..] == before[1..] + [last] + after;
      CollectChunks(before[1..], last, after);
      assert Concat(before) + last == before[0] + (Concat(before[1..]) + last);
    }
  }

  /**
   * A delivery whose only terminator is its last character is received
   * whole, however many buffer-sized pieces it takes.
   */
  lemma {:induction false} CollectWhole(s: string, rest: seq<string>)
    requires |s| > 0 && s[|s| - 1] == Terminator && Terminator !in s[..|s| - 1]
    ensures Collect([s] + rest) == Reply(Ok(s), rest)
    decreases |s|
  {
    var inbox := [s] + rest;
    assert inbox[0] == s && inbox[1..] == rest;
    if |s| > ReceiveBufferSize {
      var head, tail := s[..ReceiveBufferSize], s[ReceiveBufferSize..];
      assert Terminator !in head by {
        forall k | 0 <= k < |head|
          ensures head[k] != Terminator
        {
          assert head[k] == s[..|s| - 1][k];
        }
      }
      assert Terminator !in tail[..|tail| - 1] by {
        forall k | 0 <= k < |tail| - 1
          ensures tail[k] != Terminator
        {
          assert tail[k] == s[..|s| - 1][ReceiveBufferSize + k];
        }
      }
      CollectWhole(tail, rest);
      assert [inbox[0][ReceiveBufferSize..]] + inbox[1..] == [tail] + rest;
      assert head + tail == s;
    } else {
      assert s[|s| - 1] in s;
    }
  }

  /** The payload of a reply: the command removed wherever it occurs, then the control characters. */
  function Cleaned(received: string, command: string): string
    requires |command| > 0
  {
    Strip(RemoveAll(received, command), ControlChars)
  }

  /** The status code of a `#` reply: the rest as a decimal number, 0 when it is not one. */
  function BusyCode(processed: string): int
  {
    match ParseInt32(Strip(processed, {'#'}))
    case Some(n) => n
    case None => 0
  }

  /**
   * Echo validation and error classification of one reply. `?` is looked
   * for before `#`. An empty command passes the echo check but cannot be
   * removed (`string.Replace` refuses an empty pattern).
   */
  function ProcessEcho(received: string, command: string): (r: Result<string>)
    ensures r.Err? && r.fault.EchoMismatch? <==> !Contains(received, command)
    ensures r.Ok? ==> forall i :: 0 <= i < |r.value| ==> r.value[i] !in ControlChars && r.value[i] != '?' && r.value[i] != '#'
    ensures r.Ok? ==> |r.value| <= |received|
  {
    if !Contains(received, command) then Err(EchoMismatch(command, received))
    else if command == [] then Err(EmptyPattern)
    else
      var processed := Cleaned(received, command);
      if '?' in processed then Err(UnknownCommand(command))
      else if '#' in processed then Err(DeviceBusy(command, BusyCode(processed)))
      else Ok(processed)
  }

  /** No character of `command` is a control character. */
  predicate PlainCommand(command: string)
  {
    |command| > 0 && forall i :: 0 <= i < |command| ==> command[i] !in ControlChars
  }

  /** A payload free of control characters and error markers. */
  predicate PlainPayload(payload: string)
  {
    forall i :: 0 <= i < |payload| ==> payload[i] !in ControlChars && payload[i] != '?' && payload[i] != '#'
  }

  /** Characters of control text never occur in a plain command. */
  lemma ControlForeign(command: string, tail: string)
    requires PlainCommand(command)
    requires forall i :: 0 <= i < |tail| ==> tail[i] in ControlChars
    ensures forall i :: 0 <= i < |tail| ==> tail[i] !in command
  {
  }

  /** Removing a leading echo and then control text leaves `body` cleaned of the command. */
  lemma CleanedEchoed(command: string, body: string, tail: string)
    requires PlainCommand(command)
    requires forall i :: 0 <= i < |tail| ==> tail[i] in ControlChars
    ensures Contains(command + body + tail, command)
    ensures Cleaned(command + body + tail, command) == Strip(RemoveAll(body, command), ControlChars)
  {
    assert command + body + tail == command + (body + tail);
    ContainsPrefix(command, body + tail);
    RemoveAllLeading(command, body + tail);
    ControlForeign(command, tail);
    RemoveAllAppendForeign(body, tail, command);
    StripAppend(RemoveAll(body, command), tail, ControlChars);
    StripAll(tail, ControlChars);
  }

  /**
   * Round trip: a reply made of the echoed command, a plain payload that
   * does not itself contain the command, and trailing control characters
   * (such as CR LF `>`) yields exactly that payload.
   */
  lemma EchoRoundTrip(command: string, payload: string, tail: string)
    requires PlainCommand(command) && PlainPayload(payload) && !Contains(payload, command)
    requires forall i :: 0 <= i < |tail| ==> tail[i] in ControlChars
    ensures ProcessEcho(command + payload + tail, command) == Ok(payload)
  {
    CleanedEchoed(command, payload, tail);
    RemoveAllAbsent(payload, command);
    StripNone(payload, ControlChars);
  }

  /** The end of a reply: line ends or NULs, then the terminator. */
  predicate ReplyEnd(tail: string)
  {
    |tail| > 0 && tail[|tail| - 1] == Terminator &&
    forall i :: 0 <= i < |tail| - 1 ==> tail[i] in {'\r', '\n', '\0'}
  }

  /** One exchange whose reply is the echo, a plain payload and a reply end yields that payload. */
  lemma ExchangeRoundTrip(command: string, payload: string, tail: string, rest: seq<string>)
    requires PlainCommand(command) && PlainPayload(payload) && !Contains(payload, command)
    requires ReplyEnd(tail)
    ensures Exchange([command + payload + tail] + rest, command) == Step(Ok(payload), rest)
  {
    var s := command + payload + tail;
    assert s[..|s| - 1] == command + payload + tail[..|tail| - 1];
    assert Terminator !in s[..|s| - 1];
    CollectWhole(s, rest);
    EchoRoundTrip(command, payload, tail);
  }

  /** The acknowledgement of a command: its echo and a line end, then the terminator. */
  function Ack(command: string): string
  {
    command + "\r\n>"
  }

  function Acks(commands: seq<string>): (acks: seq<string>)
    ensures |acks| == |commands|
  {
    if commands == [] then [] else [Ack(commands[0])] + Acks(commands[1..])
  }

  function Frames(commands: seq<string>): (frames: seq<string>)
    ensures |frames| == |commands|
  {
    if commands == [] then [] else [Frame(commands[0])] + Frames(commands[1..])
  }

  /**
   * When the device acknowledges every command, the whole list succeeds,
   * every command is sent once and in order, and nothing else is received.
   */
  lemma {:induction false} AckedScript(commands: seq<string>, rest: seq<string>)
    requires forall i :: 0 <= i < |commands| ==> PlainCommand(commands[i])
    ensures RunScript(Acks(commands) + rest, commands) == Run(Ok(()), Frames(commands), rest)
    decreases |commands|
  {
    if commands != [] {
      var c := commands[0];
      var inbox := Acks(commands) + rest;
      var later := Acks(commands[1..]) + rest;
      assert inbox == [Ack(c)] + later;
      assert Ack(c) == c + "" + "\r\n>";
      assert ReplyEnd("\r\n>");
      ExchangeRoundTrip(c, "", "\r\n>", later);
      RunScriptGoesOn(inbox, commands);
      AckedScript(commands[1..], rest);
    }
  }

  /** A `?` anywhere after the echo rejects the command, whatever else follows, `#` included. */
  lemma UnknownCommandWins(command: string, body: string)
    requires PlainCommand(command) && !Contains(body, command) && '?' in body
    ensures ProcessEcho(command + body + ">", command) == Err(UnknownCommand(command))
  {
    CleanedEchoed(command, body, ">");
    RemoveAllAbsent(body, command);
    StripKeeps(body, '?', ControlChars);
  }

  /** The text of a busy reply has no control character and no `?`. */
  lemma BusyTextPlain(code: int)
    ensures forall i :: 0 <= i < |"#" + Decimal(code)| ==> ("#" + Decimal(code))[i] !in ControlChars && ("#" + Decimal(code))[i] != '?'
  {
    DecimalChars(code);
  }

  /** The code of a busy reply is read back from its decimal text. */
  lemma BusyCodeOf(code: int)
    requires IsInt32(code)
    ensures BusyCode("#" + Decimal(code)) == code
  {
    var digits := Decimal(code);
    assert Strip("#" + digits, {'#'}) == digits by {
      DecimalChars(code);
      StripAppend("#", digits, {'#'});
      StripNone(digits, {'#'});
      assert Strip("#", {'#'}) == "";
    }
    DecimalRoundTrip(code);
  }

  /** A `#` followed by a decimal code yields a busy fault carrying that code. */
  lemma BusyRoundTrip(command: string, code: int)
    requires PlainCommand(command) && !Contains("#" + Decimal(code), command)
    requires IsInt32(code)
    ensures ProcessEcho(command + ("#" + Decimal(code)) + ">", command) == Err(DeviceBusy(command, code))
  {
    var body := "#" + Decimal(code);
    CleanedEchoed(command, body, ">");
    RemoveAllAbsent(body, command);
    BusyTextPlain(code);
    StripNone(body, ControlChars);
    assert body[0] == '#';
    BusyCodeOf(code);
  }

  /** A `#` reply whose code does not parse carries status 0 (UNKNOWN_ERROR). */
  lemma BusyUnparsable(command: string, text: string)
    requires PlainCommand(command) && !Contains("#" + text, command)
    requires forall i :: 0 <= i < |text| ==> text[i] !in ControlChars && text[i] != '?' && text[i] != '#'
    requires ParseInt32(text).None?
    ensures ProcessEcho(command + ("#" + text) + ">", command) == Err(DeviceBusy(command, 0))
  {
    var body := "#" + text;
    CleanedEchoed(command, body, ">");
    RemoveAllAbsent(body, command);
    StripNone(body, ControlChars);
    assert body[0] == '#';
    assert Strip(body, {'#'}) == text by {
      StripAppend("#", text, {'#'});
      StripNone(text, {'#'});
      assert Strip("#", {'#'}) == "";
    }
  }

  /** An exchange whose reply is the echo and a busy code fails with that code, consuming the reply. */
  lemma BusyExchange(command: string, code: int, rest: seq<string>)
    requires PlainCommand(command) && !Contains("#" + Decimal(code), command)
    requires IsInt32(code)
    ensures Exchange([command + ("#" + Decimal(code)) + ">"] + rest, command) == Step(Err(DeviceBusy(command, code)), rest)
  {
    var s := command + ("#" + Decimal(code)) + ">";
    BusyTextPlain(code);
    assert s[..|s| - 1] == command + ("#" + Decimal(code));
    assert Terminator !in s[..|s| - 1];
    CollectWhole(s, rest);
    BusyRoundTrip(command, code);
  }

  /** An echoed reply whose cleaned text carries no error marker is accepted with that text. */
  lemma AcceptedReply(received: string, command: string)
    requires |command| > 0 && Contains(received, command)
    requires '?' !in Cleaned(received, command) && '#' !in Cleaned(received, command)
    ensures ProcessEcho(received, command) == Ok(Cleaned(received, command))
  {
  }

  /** The outcome of one command exchange and what is left to receive. */
  datatype Step<T> = Step(result: Result<T>, rest: seq<string>)

  /** One command: its reply accumulated, then echo-validated and classified. */
  function Exchange(inbox: seq<string>, command: string): (s: Step<string>)
    ensures s.result.Ok? ==> Pending(s.rest) < Pending(inbox)
    ensures Pending(s.rest) <= Pending(inbox)
  {
    var reply := Collect(inbox);
    match reply.raw
    case Err(f) => Step(Err(f), reply.rest)
    case Ok(text) => Step(ProcessEcho(text, command), reply.rest)
  }

  /** The outcome of a sequence of commands: result, frames sent and what is left to receive. */
  datatype Run = Run(result: Result<()>, frames: seq<string>, rest: seq<string>)

  /**
   * Commands sent one after another, each waiting for its reply; the first
   * failure ends the sequence, after that command's frame was sent.
   */
  function RunScript(inbox: seq<string>, commands: seq<string>): (r: Run)
    ensures |r.frames| <= |commands|
    ensures r.result.Ok? ==> |r.frames| == |commands|
    ensures r.result.Err? ==> |r.frames| >= 1
    decreases |commands|
  {
    if commands == [] then Run(Ok(()), [], inbox)
    else
      var s := Exchange(inbox, commands[0]);
      if s.result.Err? then Run(Err(s.result.fault), [Frame(commands[0])], s.rest)
      else
        var r := RunScript(s.rest, commands[1..]);
        Run(r.result, [Frame(commands[0])] + r.frames, r.rest)
  }

  /** The frames of a run are those of its commands, in order, up to and including a failing one. */
  lemma {:induction false} RunScriptFrames(inbox: seq<string>, commands: seq<string>)
    ensures RunScript(inbox, commands).frames == Frames(commands[..|RunScript(inbox, commands).frames|])
    decreases |commands|
  {
    if commands != [] {
      var s := Exchange(inbox, commands[0]);
      var k := |RunScript(inbox, commands).frames|;
      if s.result.Err? {
        assert commands[..1] == [commands[0]];
      } else {
        var r := RunScript(s.rest, commands[1..]);
        RunScriptFrames(s.rest, commands[1..]);
        assert commands[..k][1..] == commands[1..][..k - 1];
      }
    }
  }

  /** A run whose first command fails stops there, after sending it. */
  lemma RunScriptFails(inbox: seq<string>, commands: seq<string>)
    requires commands != [] && Exchange(inbox, commands[0]).result.Err?
    ensures RunScript(inbox, commands) ==
      Run(Err(Exchange(inbox, commands[0]).result.fault), [Frame(commands[0])], Exchange(inbox, commands[0]).rest)
  {
  }

  /** A run whose first command succeeds goes on with the remaining commands. */
  lemma RunScriptGoesOn(inbox: seq<string>, commands: seq<string>)
    requires commands != [] && Exchange(inbox, commands[0]).result.Ok?
    ensures var r := RunScript(Exchange(inbox, commands[0]).rest, commands[1..]);
      RunScript(inbox, commands) == Run(r.result, [Frame(commands[0])] + r.frames, r.rest)
  {
  }

  /** Continue a run with more commands, unless it already failed. */
  function Then(first: Run, commands: seq<string>): Run
  {
    if first.result.Err? then first
    else
      var second := RunScript(first.rest, commands);
      Run(second.result, first.frames + second.frames, second.rest)
  }

  /** Running two command lists one after the other is running their concatenation. */
  lemma {:induction false} RunScriptAppend(inbox: seq<string>, a: seq<string>, b: seq<string>)
    ensures RunScript(inbox, a + b) == Then(RunScript(inbox, a), b)
    decreases |a|
  {
    if a == [] {
      assert a + b == b;
    } else {
      assert (a + b)[0] == a[0];
      assert (a + b)[1..] == a[1..] + b;
      var s := Exchange(inbox, a[0]);
      if s.result.Ok? {
        var first := RunScript(s.rest, a[1..]);
        RunScriptAppend(s.rest, a[1..], b);
        if first.result.Ok? {
          var second := RunScript(first.rest, b);
          assert [Frame(a[0])] + (first.frames + second.frames) == ([Frame(a[0])] + first.frames) + second.frames;
        }
      }
    }
  }

  /** Running three command lists one after another is running their concatenation. */
  lemma RunScriptAppendThree(inbox: seq<string>, a: seq<string>, b: seq<string>, c: seq<string>)
    ensures RunScript(inbox, a + b + c) == Then(Then(RunScript(inbox, a), b), c)
  {
    RunScriptAppend(inbox, a + b, c);
    RunScriptAppend(inbox, a, b);
  }

  /** A one-command run: the command's exchange, its frame, and what is left to read. */
  lemma RunScriptSingle(inbox: seq<string>, c: string)
    ensures var s := Exchange(inbox, c);
      RunScript(inbox, [c]) == Run(if s.result.Ok? then Ok(()) else Err(s.result.fault), [Frame(c)], s.rest)
  {
    var s := Exchange(inbox, c);
    if s.result.Ok? {
      assert [c][1..] == [];
      assert [Frame(c)] + [] == [Frame(c)];
    }
  }

  /** A two-command run is the first command's run continued with the second. */
  lemma RunScriptPair(inbox: seq<string>, a: string, b: string)
    ensures RunScript(inbox, [a, b]) == Then(RunScript(inbox, [a]), [b])
  {
    assert [a, b] == [a] + [b];
    RunScriptAppend(inbox, [a], [b]);
  }

  /** A three-command run is the first command's run continued with the second, then the third. */
  lemma RunScriptTriple(inbox: seq<string>, a: string, b: string, c: string)
    ensures RunScript(inbox, [a, b, c]) == Then(Then(RunScript(inbox, [a]), [b]), [c])
  {
    assert [a, b, c] == [a, b] + [c];
    RunScriptAppend(inbox, [a, b], [c]);
    RunScriptPair(inbox, a, b);
  }

  /** A three-command run, case by case. */
  lemma RunScriptThree(inbox: seq<string>, a: string, b: string, c: string)
    ensures var s1 := Exchange(inbox, a); var s2 := Exchange(s1.rest, b); var s3 := Exchange(s2.rest, c);
      RunScript(inbox, [a, b, c]) ==
        if s1.result.Err? then Run(Err(s1.result.fault), [Frame(a)], s1.rest)
        else if s2.result.Err? then Run(Err(s2.result.fault), [Frame(a), Frame(b)], s2.rest)
        else Run(if s3.result.Ok? then Ok(()) else Err(s3.result.fault), [Frame(a), Frame(b), Frame(c)], s3.rest)
  {
    RunScriptTriple(inbox, a, b, c);
    var s1 := Exchange(inbox, a);
    RunScriptSingle(inbox, a);
    if s1.result.Ok? {
      RunScriptSingle(s1.rest, b);
      var s2 := Exchange(s1.rest, b);
      if s2.result.Ok? {
        RunScriptSingle(s2.rest, c);
      }
    }
  }

  /** Appending frames in two steps is appending them at once. */
  lemma AppendTwice(wire: seq<string>, first: seq<string>, second: seq<string>)
    ensures wire + first + second == wire + (first + second)
  {
  }

  /** Number of frames equal to `frame`. */
  function CountFrame(frames: seq<string>, frame: string): nat
  {
    if frames == [] then 0 else (if frames[0] == frame then 1 else 0) + CountFrame(frames[1..], frame)
  }

  lemma {:induction false} CountFrameAppend(a: seq<string>, b: seq<string>, frame: string)
    ensures CountFrame(a + b, frame) == CountFrame(a, frame) + CountFrame(b, frame)
    decreases |a|
  {
    if a != [] {
      assert (a + b)[1..] == a[1..] + b;
      CountFrameAppend(a[1..], b, frame);
    } else {
      assert a + b == b;
    }
  }

  /** Different commands make different frames. */
  lemma FrameInjective(a: string, b: string)
    ensures Frame(a) == Frame(b) ==> a == b
  {
    if Frame(a) == Frame(b) {
      assert |a| == |b|;
      assert a == Frame(a)[..|a|];
      assert b == Frame(b)[..|b|];
    }
  }

  /** A run of commands none of which is `command` sends no frame of it. */
  lemma {:induction false} RunScriptNeverSends(inbox: seq<string>, commands: seq<string>, command: string)
    requires command !in commands
    ensures CountFrame(RunScript(inbox, commands).frames, Frame(command)) == 0
    decreases |commands|
  {
    if commands != [] {
      var s := Exchange(inbox, commands[0]);
      FrameInjective(commands[0], command);
      if s.result.Ok? {
        RunScriptNeverSends(s.rest, commands[1..], command);
      }
    }
  }

  /**
   * A command that does not occur among the first commands is sent only if
   * every one of the first commands succeeded.
   */
  lemma SentOnlyAfter(inbox: seq<string>, first: seq<string>, second: seq<string>, command: string)
    requires command !in first
    ensures CountFrame(RunScript(inbox, first + second).frames, Frame(command)) > 0 ==> RunScript(inbox, first).result.Ok?
  {
    RunScriptAppend(inbox, first, second);
    RunScriptNeverSends(inbox, first, command);
  }
}
