# XenaxControl motion stack in Dafny

This project models the protocol-and-motion stack of XenaxControl, a controller
for a single Xenax linear-motor axis driven over a TCP command socket.

- **Command/response layer** (`protocol.dfy`, `axis_driver.dfy`).
  - A command is sent with one carriage return.
  - Reply chunks of at most 256 bytes are collected until a chunk holding `>` arrives.
  - The reply must contain the echoed command. The echo and the characters `>`, CR, LF and NUL are removed.
  - A `?` in what remains is an unknown command. A `#<code>` is a busy device with a status code.
  - Each driver operation sends a fixed command template: `G<n>`, `WA<n>` + `GW`, `SP`/`AC`/`SCRV`, `SLPN`/`SLPP`, `JN`/`JP`, `SM`, `REF`, `TP`, `TPSR`.
  - The 26-flag status word is decoded, including the "ERROR without HOME" fault that lists every set flag.
- **`IntBits`** (`int_bits.dfy`): a 32-bit bitfield with an indexer.
  - The getter refuses a negative index.
  - The setter does not check the index.
  - Both use `1 << index`, whose shift count is masked to five bits.
- **Axis controller** (`units.dfy`, `polling.dfy`, `controllers.dfy`).
  - Pulse and millimetre conversion with a direction sign and an offset.
  - Speed scaling by a percentage.
  - The ordered driver calls of each move.
  - The poll loops of the asynchronous moves and of homing:
    - the loop finishes when the axis is no longer in motion;
    - it times out after `Timeout` milliseconds;
    - any failure inside the loop sends one stop command and is then reported.
- **Older driver** `XenaxHWDriver` (`legacy_driver.dfy`).
  - A not-connected guard before every command.
  - A single 256-byte receive.
  - Reply cleaning without an echo check or error classification.
  - Its own choice of status bits: "initialised" is PHASING_DONE, not HOME.
  - The liveness probe decision.
  - The shared driver count.
- **Terminal model** `XenaxCommunication` (`communication.dfy`).
  - The dotted-quad address validator.
  - The guard order of `Connect`.
  - The output list kept by `Send`, `GetProcessStatus` and `ClearXenaxOutput`.

The socket is abstracted.
- `inbox` is the sequence of what successive receive calls deliver. An empty inbox is a failed receive, as when the receive timeout expires.
- `wire` is the sequence of frames sent.
- Driver methods are specified against pure functions of the inbox:
  - `Exchange` for one command;
  - `RunScript` for a list of commands that stops at the first failure;
  - `Poll`, with its two instances `MotionPoll` and `HomePoll`, and `Recover` and `WatchMotion` for the poll loops. `Poll` takes the status check as a function value, so its properties are proved once for both loops.

The stopwatch and the cancellation token become a `Clock` parameter:
- `elapsed(k)` is the time shown at the k-th check of the loop;
- `cancelled(k)` says whether the delay after that check is cancelled.

Exceptions become `Result` values carrying a `Fault`.

Two behaviours of the code worth noting:
- When the stop command inside a `catch` block fails, its exception replaces the original one. Only the stop command's fault is reported.
- The status word `0b11` has ERROR and HOME both set, so it is not a fault. Only ERROR with HOME clear faults (`AxisDriver.ErrorNeedsMissingHome`).

## Model

| member | source | states |
|---|---|---|
| Text.RemoveAllAbsent | XenaxControl/Hardware/Drivers/XenaxAxisDriver.cs:359 | removing a pattern that does not occur leaves the text unchanged |
| Text.RemovalIsOnePass | XenaxControl/Hardware/Drivers/XenaxAxisDriver.cs:359 | `Replace` is one left-to-right pass: removing `TP` from `TTPP>` leaves `TP>`, which still contains `TP` |
| Text.RemoveAllAppendForeign | XenaxControl/Hardware/Drivers/XenaxAxisDriver.cs:359 | appending text that shares no character with the pattern creates no new occurrence; removal acts on the original part alone |
| Text.ContainsAppendForeign | XenaxControl/Hardware/Drivers/XenaxAxisDriver.cs:351 | appending such text cannot make the pattern occur |
| Text.Strip | XenaxControl/Hardware/Drivers/XenaxAxisDriver.cs:360-361 | the character-class deletion keeps no character of the class, keeps only characters of the input, and never lengthens |
| Text.StripAppend | XenaxControl/Hardware/Drivers/XenaxAxisDriver.cs:360-361 | deleting a character class distributes over concatenation |
| Text.StripKeeps | XenaxControl/Hardware/Drivers/XenaxAxisDriver.cs:360-361 | a character outside the class survives the deletion |
| Text.Split | XenaxControl/Models/XenaxCommunication.cs:55 | splitting yields at least one part and no part contains the separator |
| Text.SplitCount | XenaxControl/Models/XenaxCommunication.cs:55 | splitting yields one more part than there are separators |
| Text.JoinSplit | XenaxControl/Models/XenaxCommunication.cs:55 | joining the parts of a split with the separator gives back the text |
| Text.SplitJoin | XenaxControl/Models/XenaxCommunication.cs:55 | splitting the join of separator-free parts gives back the parts |
| Numerals.ParseInt32 | XenaxControl/Hardware/Drivers/XenaxAxisDriver.cs:278 | a parsed decimal lies within the 32-bit range |
| Numerals.ParseHex32 | XenaxControl/Hardware/Drivers/XenaxAxisDriver.cs:310-314 | a parsed hexadecimal word lies below 2^32 |
| Numerals.Wrap32 | XenaxControl/Hardware/Controllers/AxisController.cs:120 | unchecked 32-bit arithmetic: the result is a 32-bit integer congruent to the exact value modulo 2^32, and equal to it when that fits |
| Numerals.ToInt32 | XenaxControl/Hardware/Drivers/XenaxAxisDriver.cs:290-294 | the signed reading of a word is a 32-bit integer with the same bit pattern (congruent modulo 2^32) |
| Numerals.Numeral | XenaxControl/Hardware/Drivers/XenaxAxisDriver.cs:239 | the digits written are non-empty and all valid digits of the base |
| Numerals.NaturalNumeral | XenaxControl/Hardware/Drivers/XenaxAxisDriver.cs:239 | reading back the digits of a natural number gives that number |
| Numerals.DecimalRoundTrip | XenaxControl/Hardware/Drivers/XenaxAxisDriver.cs:272-288 | a 32-bit integer written with `ToString` parses back to itself |
| Numerals.HexRoundTrip | XenaxControl/Hardware/Drivers/XenaxAxisDriver.cs:304-320 | a 32-bit word written in hexadecimal parses back to itself |
| Numerals.DecimalChars | XenaxControl/Hardware/Drivers/XenaxAxisDriver.cs:239 | decimal text holds only `-` and digits |
| Bits.ShiftCount | XenaxControl/IntBits.cs:24 | the bit `1 << index` addresses is below 32 and is the index itself for 0..31 |
| Bits.Get | XenaxControl/IntBits.cs:18-30 | the getter refuses exactly the negative indices |
| Bits.IntBits.constructor | XenaxControl/IntBits.cs:13-16 | the word is stored unchanged |
| Bits.IntBits.Item | XenaxControl/IntBits.cs:18-30 | for index >= 0 the getter returns whether the addressed bit is 1; a negative index is refused |
| Bits.IntBits.SetItem | XenaxControl/IntBits.cs:32-43 | after the setter the addressed bit reads back the value written, every bit at another position is unchanged, and the word stays within 32 bits |
| Bits.DigitAdd | XenaxControl/IntBits.cs:37 | `\|=` of a clear bit sets that bit and no other |
| Bits.DigitSub | XenaxControl/IntBits.cs:41 | `&= ~` of a set bit clears that bit and no other |
| Bits.SetStaysInWord | XenaxControl/IntBits.cs:32-43 | the setter keeps the word below 2^32 |
| Bits.GetAfterSet | XenaxControl/IntBits.cs:32-43 | after setting bit i to v, getting bit i (i >= 0) returns v |
| Bits.SetFrame | XenaxControl/IntBits.cs:32-43 | setting a bit leaves every bit at another position unchanged |
| Bits.SetIdempotent | XenaxControl/IntBits.cs:32-43 | setting the same value twice equals setting it once |
| Bits.IndexWraps | XenaxControl/IntBits.cs:24 | indices 32 apart address the same bit |
| Bits.SetNegativeIndex | XenaxControl/IntBits.cs:32-43 | the setter has no index check: index -1 turns on bit 31, while the getter refuses -1 |
| Status.FlagsBelow | XenaxControl/Hardware/Drivers/XenaxAxisDriver.cs:163-169 | the listing of the first `count` flags has at most `count` names |
| Status.NamesDistinct | XenaxControl/Hardware/Drivers/XenaxAxisDriver.cs:51-60 | no two status flags share a name |
| Status.SelectExact | XenaxControl/Hardware/Drivers/XenaxAxisDriver.cs:163-169 | for any list of names, a name occurring once is selected exactly when its position is among those enumerated and its bit is set |
| Status.FlagsBelowExact | XenaxControl/Hardware/Drivers/XenaxAxisDriver.cs:163-169 | among the first `count` positions, a flag is listed exactly when it is one of them and its bit is set |
| Status.ActiveFlagsExact | XenaxControl/Hardware/Drivers/XenaxAxisDriver.cs:163-169 | a flag's name is listed exactly when its bit is set; at most 26 names |
| Status.FlagLinesAppend | XenaxControl/Models/XenaxCommunication.cs:133 | the flag lines of two runs of names are the lines of each, in order |
| Status.FlagLinesStep | XenaxControl/Models/XenaxCommunication.cs:129-135 | one more enumeration value adds `"\r\n\t" + name` exactly when its bit is set |
| Status.DriverStatusNameShape | XenaxControl/Hardware/Drivers/XenaxAxisDriver.cs:33-49 | a defined busy code is shown by name; any other code by its number, never as UNKNOWN_ERROR |
| Protocol.Receive | XenaxControl/Hardware/Drivers/XenaxAxisDriver.cs:335-339 | a receive fails exactly when nothing arrives, delivers at most 256 characters, and consumes input |
| Protocol.Collect | XenaxControl/Hardware/Drivers/XenaxAxisDriver.cs:333-342 | a collected reply contains `>`; a failed receive fails the reply |
| Protocol.CollectChunks | XenaxControl/Hardware/Drivers/XenaxAxisDriver.cs:333-345 | the reply is every chunk up to and including the first that itself contains `>`, concatenated; later deliveries stay unread |
| Protocol.CollectWhole | XenaxControl/Hardware/Drivers/XenaxAxisDriver.cs:333-345 | a delivery ending in its only `>` is received whole however many 256-byte pieces it takes |
| Protocol.ProcessEcho | XenaxControl/Hardware/Drivers/XenaxAxisDriver.cs:348-380 | fails with an echo mismatch exactly when the reply lacks the command; an accepted payload has no `>`, CR, LF, NUL, `?` or `#` and is no longer than the reply |
| Protocol.CleanedEchoed | XenaxControl/Hardware/Drivers/XenaxAxisDriver.cs:359-361 | an echoed reply passes the echo check and cleans to its body without the command |
| Protocol.EchoRoundTrip | XenaxControl/Hardware/Drivers/XenaxAxisDriver.cs:348-380 | echo, plain payload and trailing control text is accepted with exactly that payload |
| Protocol.ExchangeRoundTrip | XenaxControl/Hardware/Drivers/XenaxAxisDriver.cs:322-380 | one exchange whose delivery is echo, payload and a reply end returns the payload and consumes just that delivery |
| Protocol.AckedScript | XenaxControl/Hardware/Drivers/XenaxAxisDriver.cs:233-252 | when every command is acknowledged, a command list succeeds, sends each frame once in order and reads nothing more |
| Protocol.UnknownCommandWins | XenaxControl/Hardware/Drivers/XenaxAxisDriver.cs:364-377 | `?` is checked before `#`: a `?` after the echo rejects the command as unknown whatever else follows |
| Protocol.BusyCodeOf | XenaxControl/Hardware/Drivers/XenaxAxisDriver.cs:373-374 | the busy code is read back from its decimal text |
| Protocol.BusyRoundTrip | XenaxControl/Hardware/Drivers/XenaxAxisDriver.cs:371-377 | `#` and a decimal code after the echo is a busy fault carrying that code |
| Protocol.BusyUnparsable | XenaxControl/Hardware/Drivers/XenaxAxisDriver.cs:371-377 | a `#` reply whose remainder is not a number carries status 0 (UNKNOWN_ERROR) |
| Protocol.BusyExchange | XenaxControl/Hardware/Drivers/XenaxAxisDriver.cs:371-377 | an exchange whose reply is the echo and a busy code fails with that code and consumes the reply |
| Protocol.AcceptedReply | XenaxControl/Hardware/Drivers/XenaxAxisDriver.cs:358-379 | an echoed reply whose cleaned text has no `?` or `#` is accepted with that text |
| Protocol.Exchange | XenaxControl/Hardware/Drivers/XenaxAxisDriver.cs:322-380 | a successful exchange consumes input; none produces input |
| Protocol.RunScript | XenaxControl/Hardware/Drivers/XenaxAxisDriver.cs:233-252 | at most one frame per command; all of them on success; at least one on failure |
| Protocol.RunScriptFrames | XenaxControl/Hardware/Drivers/XenaxAxisDriver.cs:233-252 | the frames sent are those of a prefix of the commands, in order |
| Protocol.RunScriptFails | XenaxControl/Hardware/Drivers/XenaxAxisDriver.cs:239-241 | a failing first command ends the run after its frame, with its fault |
| Protocol.RunScriptGoesOn | XenaxControl/Hardware/Drivers/XenaxAxisDriver.cs:239-246 | a successful first command is followed by the rest of the list |
| Protocol.RunScriptAppend | XenaxControl/Hardware/Controllers/AxisController.cs:78-84 | running two lists one after the other, the second only when the first succeeded, is running their concatenation |
| Protocol.FrameInjective | XenaxControl/Hardware/Drivers/XenaxAxisDriver.cs:325 | different commands put different frames on the wire |
| Protocol.RunScriptNeverSends | XenaxControl/Hardware/Controllers/AxisController.cs:108-112 | a list without a command never sends its frame |
| Protocol.SentOnlyAfter | XenaxControl/Hardware/Controllers/AxisController.cs:78-84 | a command absent from the first part of a list is sent only if every command of that part succeeded |
| AxisDriver.Sign | XenaxControl/Hardware/Controllers/AxisController.cs:250 | a direction's value is -1 or +1, negative exactly for Negative |
| AxisDriver.Product | XenaxControl/Hardware/Controllers/XenaxAxisController.cs:44 | the product direction has the product of the two values |
| AxisDriver.NumberedCommand | XenaxControl/Hardware/Drivers/XenaxAxisDriver.cs:239-259 | a letter prefix plus a decimal number is a plain command, and the number is read back from its text |
| AxisDriver.MoveAbsAcknowledged | XenaxControl/Hardware/Drivers/XenaxAxisDriver.cs:201-206 | an acknowledged absolute move succeeds with exactly the frame `G<n>` |
| AxisDriver.MoveRelAcknowledged | XenaxControl/Hardware/Drivers/XenaxAxisDriver.cs:208-220 | an acknowledged relative move succeeds with `WA<n>` then `GW` |
| AxisDriver.ProfileAcknowledged | XenaxControl/Hardware/Drivers/XenaxAxisDriver.cs:233-252 | an acknowledged profile succeeds with `SP`, `AC`, `SCRV` in that order |
| AxisDriver.LimitsAcknowledged | XenaxControl/Hardware/Drivers/XenaxAxisDriver.cs:254-266 | acknowledged limits succeed with `SLPN` then `SLPP` |
| AxisDriver.StatusQuery | XenaxControl/Hardware/Drivers/XenaxAxisDriver.cs:304-320 | a decoded status word is below 2^32 and consumes input |
| AxisDriver.MotionQuery | XenaxControl/Hardware/Drivers/XenaxAxisDriver.cs:151-157 | a successful motion query consumes input |
| AxisDriver.InitializedQuery | XenaxControl/Hardware/Drivers/XenaxAxisDriver.cs:144-149 | a successful homing query consumes input |
| AxisDriver.StatusQueryFault | XenaxControl/Hardware/Drivers/XenaxAxisDriver.cs:304-320 | a status query never fails with a timeout or a cancellation |
| AxisDriver.PositionQuery | XenaxControl/Hardware/Drivers/XenaxAxisDriver.cs:272-288 | a decoded position is a 32-bit integer |
| AxisDriver.MotionStateMeaning | XenaxControl/Hardware/Drivers/XenaxAxisDriver.cs:151-174 | the motion state faults exactly when ERROR is set and HOME clear, and is otherwise the IN_MOTION bit |
| AxisDriver.MotionFaultFlags | XenaxControl/Hardware/Drivers/XenaxAxisDriver.cs:158-173 | the fault lists exactly the set flags, so it names ERROR and never HOME |
| AxisDriver.ErrorNeedsMissingHome | XenaxControl/Hardware/Drivers/XenaxAxisDriver.cs:160 | word 3 (ERROR and HOME) is not a fault and reads not in motion; word 1 (ERROR alone) faults |
| AxisDriver.HexPayload | XenaxControl/Hardware/Drivers/XenaxAxisDriver.cs:304-320 | hexadecimal text is a plain payload that cannot contain any command starting with a non-digit, such as `TPSR` |
| AxisDriver.DecimalPayload | XenaxControl/Hardware/Drivers/XenaxAxisDriver.cs:272-288 | decimal text is a plain payload that cannot contain a command starting with a letter |
| AxisDriver.StatusReply | XenaxControl/Hardware/Drivers/XenaxAxisDriver.cs:304-320 | a status reply carrying a word's hexadecimal text decodes to that word; the homing query reads its HOME bit |
| AxisDriver.PositionReply | XenaxControl/Hardware/Drivers/XenaxAxisDriver.cs:272-288 | a position reply carrying a 32-bit integer's decimal text decodes to it |
| AxisDriver.PositionNotNumeric | XenaxControl/Hardware/Drivers/XenaxAxisDriver.cs:278-287 | a non-numeric payload fails the position query with a parse error |
| AxisDriver.SetFlagNames | XenaxControl/Hardware/Drivers/XenaxAxisDriver.cs:162-169 | the loop gathers the names of the set flags in enumeration order |
| AxisDriver.XenaxAxisDriver.constructor | XenaxControl/Hardware/Drivers/XenaxAxisDriver.cs:20-26 | nothing sent yet |
| AxisDriver.XenaxAxisDriver.SendCommand | XenaxControl/Hardware/Drivers/XenaxAxisDriver.cs:322-346 | sends the command and one CR, then returns the collected reply and leaves the rest unread |
| AxisDriver.XenaxAxisDriver.Command | XenaxControl/Hardware/Drivers/XenaxAxisDriver.cs:178-180 | one command is its frame sent and its exchange |
| AxisDriver.XenaxAxisDriver.Initialize | XenaxControl/Hardware/Drivers/XenaxAxisDriver.cs:176-181 | homing sends `REF` whatever the direction |
| AxisDriver.XenaxAxisDriver.Move | XenaxControl/Hardware/Drivers/XenaxAxisDriver.cs:183-199 | jogging sends `JN` for Negative and `JP` for Positive |
| AxisDriver.XenaxAxisDriver.MoveAbs | XenaxControl/Hardware/Drivers/XenaxAxisDriver.cs:201-206 | sends exactly `G<position>` |
| AxisDriver.XenaxAxisDriver.MoveRel | XenaxControl/Hardware/Drivers/XenaxAxisDriver.cs:208-220 | sends `WA<distance>`, then `GW` only if that succeeded |
| AxisDriver.XenaxAxisDriver.Stop | XenaxControl/Hardware/Drivers/XenaxAxisDriver.cs:222-227 | sends `SM` whatever the mode |
| AxisDriver.XenaxAxisDriver.SetMovementTiming | XenaxControl/Hardware/Drivers/XenaxAxisDriver.cs:229-231 | the six-argument profile sends nothing |
| AxisDriver.XenaxAxisDriver.SetMovementParameter | XenaxControl/Hardware/Drivers/XenaxAxisDriver.cs:233-252 | sends `SP`, `AC`, `SCRV` in that order, stopping at the first failure |
| AxisDriver.XenaxAxisDriver.CommandTriple | XenaxControl/Hardware/Drivers/XenaxAxisDriver.cs:233-252 | three commands one after another, stopping at the first failure |
| AxisDriver.XenaxAxisDriver.SetSoftwareLimit | XenaxControl/Hardware/Drivers/XenaxAxisDriver.cs:254-266 | sends `SLPN<negative>`, then `SLPP<positive>` |
| AxisDriver.XenaxAxisDriver.SetAbsPosition | XenaxControl/Hardware/Drivers/XenaxAxisDriver.cs:268-270 | sends nothing |
| AxisDriver.XenaxAxisDriver.SetAlarmLogicLevel | XenaxControl/Hardware/Drivers/XenaxAxisDriver.cs:296-298 | sends nothing |
| AxisDriver.XenaxAxisDriver.SetServoState | XenaxControl/Hardware/Drivers/XenaxAxisDriver.cs:300-302 | sends nothing |
| AxisDriver.XenaxAxisDriver.GetStatusWord | XenaxControl/Hardware/Drivers/XenaxAxisDriver.cs:304-320 | sends `TPSR` and returns its payload parsed as hexadecimal, or a parse error |
| AxisDriver.XenaxAxisDriver.GetAxisStatus | XenaxControl/Hardware/Drivers/XenaxAxisDriver.cs:290-294 | returns the status word as the signed integer with its bit pattern |
| AxisDriver.XenaxAxisDriver.IsInitialized | XenaxControl/Hardware/Drivers/XenaxAxisDriver.cs:144-149 | returns the HOME bit |
| AxisDriver.XenaxAxisDriver.IsInMotion | XenaxControl/Hardware/Drivers/XenaxAxisDriver.cs:151-174 | faults with the set flags when ERROR is set without HOME; returns the IN_MOTION bit otherwise |
| AxisDriver.XenaxAxisDriver.GetAbsPosition | XenaxControl/Hardware/Drivers/XenaxAxisDriver.cs:272-288 | sends `TP` and returns the payload parsed as a signed decimal, or a parse error |
| Units.Trunc | XenaxControl/Hardware/Controllers/AxisController.cs:243 | the `(int)` cast moves toward zero by less than one |
| Units.TruncWhole | XenaxControl/Hardware/Controllers/AxisController.cs:243 | whole numbers are unchanged by the cast |
| Units.TruncTowardZero | XenaxControl/Hardware/Controllers/AxisController.cs:243 | the cast is no larger in magnitude and within one |
| Units.MillimetreToPulseBounds | XenaxControl/Hardware/Controllers/AxisController.cs:237-244 | the pulse count is the exact value truncated: within one pulse, no larger in magnitude, same sign |
| Units.PulseRoundTrip | XenaxControl/Hardware/Controllers/AxisController.cs:228-244 | a whole number of pulses converted to millimetres converts back to itself |
| Units.AdjustedRoundTrip | XenaxControl/Hardware/Controllers/AxisController.cs:246-258 | a target converted to pulses and reported back misses only by the truncated fraction of a pulse (less than one) times the millimetres per pulse, with the direction's sign |
| Units.ReportedPosition | XenaxControl/Hardware/Controllers/AxisController.cs:246-251 | the reported position of p pulses is the offset plus the truncation error scaled back to millimetres |
| Units.SignedPulseWraps | XenaxControl/Hardware/Controllers/AxisController.cs:119-120 | signing a 32-bit pulse count by the direction changes it exactly for the smallest count in the negative direction, which stays the smallest count |
| Units.AdjustedSpeedBounds | XenaxControl/Hardware/Controllers/AxisController.cs:262 | at 100 percent the speed is the final speed; between 0 and 100 percent it lies between 0 and the final speed |
| Polling.MotionPollQueries | XenaxControl/Hardware/Controllers/AxisController.cs:98-106 | the motion poll sends status queries only, at least one |
| Polling.HomePollQueries | XenaxControl/Hardware/Controllers/XenaxAxisController.cs:28-31 | the homing poll sends status queries only, at least one |
| Polling.NoStopAmongQueries | XenaxControl/Hardware/Controllers/AxisController.cs:98-106 | the queries of a poll include no stop command |
| Polling.PollUnroll | XenaxControl/Hardware/Controllers/AxisController.cs:98-106 | after n checks that each kept the loop going, the poll is n status queries followed by the poll from check k + n on the input those queries left |
| Polling.PollEndsAt | XenaxControl/Hardware/Controllers/AxisController.cs:98-106 | a poll kept going by n checks and not by the next ends at that check: n + 1 queries, exactly their replies read, and that check's answer, clock and token decide the outcome |
| Polling.PollHalts | XenaxControl/Hardware/Controllers/AxisController.cs:98-106 | every check before the last one kept the loop going, and the last one did not |
| Polling.PollStops | XenaxControl/Hardware/Controllers/AxisController.cs:98-106 | every poll ends after n + 1 status queries, the first n kept it going, the last decides the outcome (error, done, timeout or cancellation), and exactly their replies are read |
| Polling.PollSettles | XenaxControl/Hardware/Controllers/AxisController.cs:98-106 | a poll succeeds if and only if some check n finds the awaited state after n checks that kept it going; it then ends at that check with n + 1 queries |
| Polling.PollTimesOut | XenaxControl/Hardware/Controllers/AxisController.cs:100-103 | when the check itself never reports a timeout, a poll times out if and only if some check n finds the state not yet reached with the clock past the limit, after n checks that kept it going; it then ends at that check |
| Polling.PollBounded | XenaxControl/Hardware/Controllers/AxisController.cs:98-106 | once the clock has passed the limit at check `last`, the poll sends at most `last - k + 1` queries |
| Polling.MotionPollSettles | XenaxControl/Hardware/Controllers/AxisController.cs:98-106 | the motion poll ends normally if and only if some check n finds the axis not in motion after n checks that found it in motion within `Timeout` with no cancelled delay; it then sent n + 1 queries and read exactly their replies |
| Polling.MotionPollTimesOut | XenaxControl/Hardware/Controllers/AxisController.cs:100-103 | the motion poll times out if and only if some check n finds the axis still in motion with more than `Timeout` elapsed, after n checks that found it in motion within `Timeout` with no cancelled delay; it then sent n + 1 queries |
| Polling.MotionPollBounded | XenaxControl/Hardware/Controllers/AxisController.cs:98-106 | once the clock has passed `Timeout` at check `last`, the poll sends at most `last - k + 1` queries |
| Polling.HomePollHomed | XenaxControl/Hardware/Controllers/XenaxAxisController.cs:28-31 | the homing poll ends normally if and only if some check n finds HOME set after n checks that found it clear with no cancelled delay; it then sent n + 1 queries and read exactly their replies |
| Polling.HomePollNoTimeout | XenaxControl/Hardware/Controllers/XenaxAxisController.cs:26-32 | the homing poll never times out |
| Polling.MotionPollNotCancelled | XenaxControl/Hardware/Controllers/AxisController.cs:105 | without a cancelled delay the poll is never cancelled |
| Polling.RecoverStopsOnce | XenaxControl/Hardware/Controllers/AxisController.cs:108-112 | the catch block sends exactly one stop command, as the last frame, when the poll failed, and none otherwise; the result fails exactly when the poll did, with the stop command's fault when that failed too |
| Polling.WatchMotionStops | XenaxControl/Hardware/Controllers/AxisController.cs:91-113 | a failed motion command is reported with no stop and no poll; otherwise one stop follows exactly when the poll failed |
| Polling.WatchHomingStops | XenaxControl/Hardware/Controllers/XenaxAxisController.cs:22-38 | the same for homing: one stop exactly when the homing poll failed |
| Controllers.PreparationLetters | XenaxControl/Hardware/Controllers/AxisController.cs:260-278 | every preparation command starts with `S` or `A` |
| Controllers.MotionAfterPreparation | XenaxControl/Hardware/Controllers/AxisController.cs:78-84 | the motion command is sent only if the profile and both limits were accepted |
| Controllers.HomingAfterZeroLimits | XenaxControl/Hardware/Controllers/XenaxAxisController.cs:16-20 | `REF` is sent only after both zero limits were accepted, as the third frame |
| Controllers.JogDirection | XenaxControl/Hardware/Controllers/XenaxAxisController.cs:44 | the jog is positive exactly when the requested and configured directions agree |
| Controllers.DefaultMoveAbs | XenaxControl/Hardware/Controllers/XenaxAxisController.cs:48-58 | with the defaults, the positive direction and no offset, an absolute move to 10 mm sends `G10000` |
| Controllers.DefaultTarget | XenaxControl/Hardware/Controllers/XenaxAxisController.cs:50-51 | 10 mm at 1 mm and 1000 pulses per revolution is 10000 pulses |
| Controllers.MoveStopsAtMostOnce | XenaxControl/Hardware/Controllers/AxisController.cs:91-113 | an asynchronous move sends at most one stop: exactly one when its commands succeeded and the poll failed |
| Controllers.XenaxAxisController.constructor | XenaxControl/Hardware/Controllers/XenaxAxisController.cs:10-14 | the identifier, and the defaults: 1 mm and 1000 pulses per revolution, limits 0..800000, final speed 100000, acceleration 1000000, S-curve 100, timeout 15000 |
| Controllers.XenaxAxisController.LoadDriver | XenaxControl/Hardware/Controllers/AxisController.cs:53-57 | replaces the driver; every setting is unchanged |
| Controllers.XenaxAxisController.SetParameter | XenaxControl/Hardware/Controllers/AxisController.cs:260-278 | sends the three-argument profile at the truncated scaled speed; the six-argument profile adds nothing |
| Controllers.XenaxAxisController.Prepare | XenaxControl/Hardware/Controllers/AxisController.cs:80-81 | the profile, then the configured software limits |
| Controllers.XenaxAxisController.MoveAbs | XenaxControl/Hardware/Controllers/AxisController.cs:78-84 | the profile, the limits, then `G` of the adjusted pulse of the target |
| Controllers.XenaxAxisController.MoveRel | XenaxControl/Hardware/Controllers/AxisController.cs:115-121 | the profile, the limits, then the relative move by the converted distance times the direction in unchecked 32-bit arithmetic, with no offset |
| Controllers.XenaxAxisController.MoveOrigin | XenaxControl/Hardware/Controllers/AxisController.cs:152-157 | the profile, the limits, then `G` of the origin pulse, unconverted |
| Controllers.XenaxAxisController.Move | XenaxControl/Hardware/Controllers/XenaxAxisController.cs:40-46 | the profile, the limits, then jogging in the requested direction times the configured one |
| Controllers.XenaxAxisController.Stop | XenaxControl/Hardware/Controllers/AxisController.cs:188-191 | the driver's stop command |
| Controllers.XenaxAxisController.Initialize | XenaxControl/Hardware/Controllers/XenaxAxisController.cs:16-20 | limits (0, 0), then homing |
| Controllers.XenaxAxisController.IsInMotion | XenaxControl/Hardware/Controllers/AxisController.cs:67-70 | the driver's motion query |
| Controllers.XenaxAxisController.GetAbsPosition | XenaxControl/Hardware/Controllers/AxisController.cs:223-226 | the driver's position query |
| Controllers.XenaxAxisController.GetPosition | XenaxControl/Hardware/Controllers/AxisController.cs:217-221 | the queried pulses as the adjusted millimetre position |
| Controllers.XenaxAxisController.PollMotion | XenaxControl/Hardware/Controllers/AxisController.cs:96-112 | the loop does what the motion poll and its catch block specify: queries until the axis stops, a timeout or a cancellation, then one stop command on failure |
| Controllers.XenaxAxisController.PollHoming | XenaxControl/Hardware/Controllers/XenaxAxisController.cs:26-37 | the loop does what the homing poll and its catch block specify |
| Controllers.XenaxAxisController.MoveAbsAsync | XenaxControl/Hardware/Controllers/AxisController.cs:91-113 | the absolute move, then, only if it was accepted, the guarded motion poll |
| Controllers.XenaxAxisController.MoveRelAsync | XenaxControl/Hardware/Controllers/AxisController.cs:128-150 | the relative move, then, only if it was accepted, the guarded motion poll |
| Controllers.XenaxAxisController.MoveOriginAsync | XenaxControl/Hardware/Controllers/AxisController.cs:164-186 | the move to the origin, then, only if it was accepted, the guarded motion poll |
| Controllers.XenaxAxisController.StopAsync | XenaxControl/Hardware/Controllers/AxisController.cs:193-215 | the stop command, then, only if it was accepted, the guarded motion poll |
| Controllers.XenaxAxisController.InitializeAsync | XenaxControl/Hardware/Controllers/XenaxAxisController.cs:22-38 | homing, then, only if it was accepted, the guarded homing poll |
| LegacyDriver.ProbeVerdictExact | XenaxControl/XenaxHWDriver.cs:176-214 | connected exactly when a socket exists, the socket says it is connected, and the probe send raised nothing or only would-block (10035) |
| LegacyDriver.Padded | XenaxControl/XenaxHWDriver.cs:133-137 | the receive buffer is 256 characters: the received text, then NULs |
| LegacyDriver.LegacyReplyShape | XenaxControl/XenaxHWDriver.cs:131-142 | a reply has at most 256 characters and no `>`, CR, LF or NUL; it fails exactly when nothing arrives or the command is empty |
| LegacyDriver.PaddingIgnored | XenaxControl/XenaxHWDriver.cs:133-140 | for a command without NUL, the buffer's unused NULs do not change the cleaned reply |
| LegacyDriver.NoEchoCheck | XenaxControl/XenaxHWDriver.cs:137-142 | a reply without the command is still returned, cleaned, where the axis driver reports an echo mismatch |
| LegacyDriver.CleanedTerminated | XenaxControl/XenaxHWDriver.cs:138-140 | a plain payload followed by `>` cleans to the payload |
| LegacyDriver.NotContainedAfterTerminator | XenaxControl/XenaxHWDriver.cs:138 | appending `>` cannot make a plain command occur |
| LegacyDriver.NoErrorMarkers | XenaxControl/XenaxHWDriver.cs:137-142 | an echoed reply holding `?` is returned as text, where the axis driver reports an unknown command |
| LegacyDriver.InitializedBitsDiffer | XenaxControl/XenaxHWDriver.cs:145-150 | word 2 has HOME set and PHASING_DONE clear: homed for the axis driver, not initialised for this one |
| LegacyDriver.DriverRegistry.constructor | XenaxControl/XenaxHWDriver.cs:15 | the shared count starts at zero |
| LegacyDriver.XenaxHWDriver.constructor | XenaxControl/XenaxHWDriver.cs:22-30 | stores name and end point, not connected, and increments the shared driver count by exactly one |
| LegacyDriver.XenaxHWDriver.Connect | XenaxControl/XenaxHWDriver.cs:73-82 | a port outside 0..65535 is refused before a socket exists; otherwise a socket exists; when the device accepts, the result is read through the `Connected` getter, so the probe's verdict is stored and returned; when it refuses, the call fails with a connection error |
| LegacyDriver.XenaxHWDriver.IsConnected | XenaxControl/XenaxHWDriver.cs:50-61 | runs the probe, stores its verdict and returns it |
| LegacyDriver.XenaxHWDriver.Disconnect | XenaxControl/XenaxHWDriver.cs:109-122 | afterwards no socket and not connected, whatever the state before (idempotent); returns true |
| LegacyDriver.XenaxHWDriver.SendCommand | XenaxControl/XenaxHWDriver.cs:124-143 | refused with nothing sent when the probe says not connected; otherwise the frame is sent and one receive is cleaned |
| LegacyDriver.XenaxHWDriver.StatusBit | XenaxControl/XenaxHWDriver.cs:145-164 | sends `TPSR` and reads one bit of the reply parsed as hexadecimal |
| LegacyDriver.XenaxHWDriver.IsDriverInitialized | XenaxControl/XenaxHWDriver.cs:145-150 | bit 25, PHASING_DONE |
| LegacyDriver.XenaxHWDriver.IsDriverInPosition | XenaxControl/XenaxHWDriver.cs:152-157 | bit 3, IN_POSITION |
| LegacyDriver.XenaxHWDriver.IsDriverInMotion | XenaxControl/XenaxHWDriver.cs:159-164 | bit 2, IN_MOTION |
| LegacyDriver.XenaxHWDriver.GetErrorCode | XenaxControl/XenaxHWDriver.cs:166-169 | sends `TE` and returns the reply parsed as a decimal, or a parse error |
| LegacyDriver.XenaxHWDriver.GetErrorMessage | XenaxControl/XenaxHWDriver.cs:171-174 | sends `TES` and returns the cleaned reply |
| Communication.ParseByte | XenaxControl/Models/XenaxCommunication.cs:160 | a part is accepted only as decimal digits worth at most 255 |
| Communication.ByteTexts | XenaxControl/Models/XenaxCommunication.cs:150-164 | one decimal text per byte |
| Communication.ParseAddressExact | XenaxControl/Models/XenaxCommunication.cs:150-164 | an address is accepted exactly when it has four parts, each a decimal number up to 255, and byte i is the value of part i |
| Communication.SplitDottedQuad | XenaxControl/Models/XenaxCommunication.cs:55 | splitting a dotted quad on `.` gives back its decimal parts |
| Communication.AddressRoundTrip | XenaxControl/Models/XenaxCommunication.cs:150-164 | four bytes written as a dotted quad validate back to the same four bytes |
| Communication.ConnectGuardOrder | XenaxControl/Models/XenaxCommunication.cs:43-77 | the guards run in order (empty address, empty port, address format, port number); all pass exactly when each holds |
| Communication.ConnectGuardRoundTrip | XenaxControl/Models/XenaxCommunication.cs:41-79 | a dotted quad and a decimal 32-bit port pass every guard and yield that end point |
| Communication.StatusEntryFlags | XenaxControl/Models/XenaxCommunication.cs:127-137 | an entry exists exactly when the reply is a hex word; it is the reply followed by the lines of exactly the set flags |
| Communication.StatusEntryRoundTrip | XenaxControl/Models/XenaxCommunication.cs:127-137 | a word's hexadecimal text is listed with the flags of that same word |
| Communication.XenaxCommunication.constructor | XenaxControl/Models/XenaxCommunication.cs:15-18 | empty output list and no driver |
| Communication.XenaxCommunication.ValidateIP | XenaxControl/Models/XenaxCommunication.cs:150-164 | the for loop fills the bytes exactly as the address validation specifies |
| Communication.XenaxCommunication.IsConnected | XenaxControl/Models/XenaxCommunication.cs:28-39 | false without a driver, the driver's probe verdict otherwise |
| Communication.XenaxCommunication.Connect | XenaxControl/Models/XenaxCommunication.cs:41-89 | a refused guard creates no driver and counts none; otherwise one new counted driver for the parsed end point, then its connection, connected exactly when the device accepts and the probe then says connected |
| Communication.XenaxCommunication.Disconnect | XenaxControl/Models/XenaxCommunication.cs:91-97 | disconnects the driver if there is one |
| Communication.XenaxCommunication.Send | XenaxControl/Models/XenaxCommunication.cs:99-115 | one entry `"> " + reply` exactly when the call succeeds; none without a driver or on failure |
| Communication.XenaxCommunication.GetProcessStatus | XenaxControl/Models/XenaxCommunication.cs:117-143 | one entry listing the set flags after the reply when the reply is a hex word; none otherwise |
| Communication.XenaxCommunication.ListFlags | XenaxControl/Models/XenaxCommunication.cs:129-135 | the foreach appends exactly the lines of the set flags, in bit order |
| Communication.XenaxCommunication.ClearXenaxOutput | XenaxControl/Models/XenaxCommunication.cs:145-148 | empties the output list |

## Left out

- Sockets: creation, connection (`Connect`, `ConnectAsync`), closing and the 250 ms timeouts are not modelled. The driver sees only the abstract `wire` and `inbox`, so `XenaxAxisDriver.Connect`/`Disconnect`/`Connected` have no counterpart.
- Locking: the lock around a command exchange is not modelled. The model is sequential.
- Real time: the stopwatch, `Task.Delay` and the cancellation token are the `Clock` parameter. The 50 ms and 10 ms delays are not modelled.
- ASCII and UTF-8 encoding: characters stand for bytes.
- Doubles are modelled as exact reals. Rounding, overflow of the `(int)` cast, and infinities or NaN from a zero `PulsePerRev` or `DisplacementPerRev` are not. The conversions require a non-zero divisor.
- .NET number parsing is modelled on the plain grammar only: digits, an optional leading `-` for decimals, and no whitespace, `+` sign or culture handling. This covers `int.TryParse`, `Convert.ToByte`, `Convert.ToInt32` and the hex parse.
- Exception message text is not modelled, except for the ordered flag list of the status fault. The `|` join of that message is left out.
- `AxisId`, `InitializeSpeedPercentage`, `ServoState` and `ServoAlarmLogicLevel` are properties that the modelled operations never read. They are not modelled.
- `Controllers.XenaxAxisController.constructor`: does not model the enum default value 0 of `Direction` and `InitializeDirection`, which is neither +1 nor -1. Both are left unspecified after construction.
- The overloads that default the speed percentage to 100 are not modelled separately. They are the modelled methods called with 100.
- `LoadSettings` and `SaveSettings` are empty and are left out.
- Message boxes are not modelled. A failure shows one and leaves the output list unchanged, which is what the model states.
- `Communication.XenaxCommunication.Send`: without a driver the source shows a message box and then fails with a null reference, which is caught. The model states only the outcome: nothing is sent and the output list is unchanged.
- The address and port are modelled as strings, where the source also allows null. `string.IsNullOrEmpty` treats null and the empty string alike.
- `LegacyDriver.XenaxHWDriver.Connect`: the socket connection is abstracted as a flag saying whether the device accepts. The end point's port range check is the only rule kept. The liveness probe that the `Connected` getter runs afterwards is a parameter, as for the getter itself.
- `ConnectAsync` of the older driver is not modelled.
- The `XenaxHWController` class is not part of this model, nor are the view models, views, converters and command plumbing.
- Each receive of the older driver is modelled with the same 256-character cut as the axis driver's receive.
- `Protocol.Collect`: a receive of 0 bytes, which is what a closed peer gives, makes the source's receive loop spin forever while it holds the lock. The model reads an empty delivery as a chunk without `>` and goes on to the next delivery, so it does not capture that the call never returns.
- `AxisDriver.XenaxAxisDriver.SendCommand`: inherits the same gap from `Protocol.Collect`.
- `LegacyDriver.XenaxHWDriver.SendCommand`: the older driver's socket has no receive timeout, so a receive with nothing to deliver blocks forever. The model's `ReceiveFailed` on an empty inbox stands for a call that never returns.
- `Controllers.XenaxAxisController.LoadDriver`: the `DriverId` property it sets from the driver's id is not modelled. No modelled operation reads it.
- `Controllers.XenaxAxisController.constructor`: takes the driver as an argument. In the source the constructor takes only the axis id, and the driver stays null until `LoadDriver`, so the model does not capture calls made before a driver is loaded.
