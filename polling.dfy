/**
 * The poll loops that follow a motion command. After the command, the
 * controller asks for the motion state until the axis is no longer in
 * motion; while it still moves, more than `Timeout` milliseconds since the
 * loop started is a timeout, and otherwise it waits (a delay that a
 * cancellation token can cancel) and asks again. Homing polls the HOME bit
 * the same way, with no timeout. Any failure inside the loop (a fault of
 * the query, the timeout, the cancelled delay) sends one stop command and
 * is then reported; a failure of that stop command is reported instead.
 * A failure of the motion command itself, before the loop, is reported
 * without stopping.
 */
module Polling {
  import opened Protocol
  import opened AxisDriver
  import opened Numerals

  /**
   * What the stopwatch and the cancellation token show during a poll:
   * `elapsed(k)` is the time in milliseconds since the loop started, read
   * at the k-th check (counting from 0), and `cancelled(k)` says whether the
   * delay after the k-th check is cancelled.
   */
  datatype Clock = Clock(elapsed: nat -> nat, cancelled: nat -> bool)

  /** The frames of `sent`, then the run. */
  function After(sent: seq<string>, run: Run): Run
  {
    Run(run.result, sent + run.frames, run.rest)
  }

  /** Prefixing twice is prefixing the concatenation. */
  lemma AfterTwice(first: seq<string>, second: seq<string>, run: Run)
    ensures After(first, After(second, run)) == After(first + second, run)
  {
    AppendTwice(first, second, run.frames);
  }

  /** A status check as a value: what it answers, and what it leaves of the input. */
  type Check = seq<string> -> Step<bool>

  /** A check that answers has read at least one reply. */
  ghost predicate Consumes(check: Check)
  {
    forall inbox :: check(inbox).result.Ok? ==> Pending(check(inbox).rest) < Pending(inbox)
  }

  /**
   * A poll from the k-th check on: one status query per check; done when
   * the check answers `settled`, a timeout when it does not and the clock
   * shows more than `limit` (when there is one), a cancellation when the
   * delay is cancelled, and the next check otherwise.
   */
  function Poll(check: Check, settled: bool, limit: Option<int>, inbox: seq<string>, clock: Clock, k: nat): Run
    requires Consumes(check)
    decreases Pending(inbox)
  {
    var q := check(inbox);
    var sent := [Frame(StatusCommand)];
    if q.result.Err? then Run(Err(q.result.fault), sent, q.rest)
    else if q.result.value == settled then Run(Ok(()), sent, q.rest)
    else if limit.Some? && clock.elapsed(k) > limit.value then Run(Err(TimedOut), sent, q.rest)
    else if clock.cancelled(k) then Run(Err(Cancelled), sent, q.rest)
    else After(sent, Poll(check, settled, limit, q.rest, clock, k + 1))
  }

  /** The motion and homing checks read at least one reply when they answer. */
  lemma ChecksConsume()
    ensures Consumes(MotionQuery) && Consumes(InitializedQuery)
  {
  }

  /**
   * The motion poll: the check is "in motion", the poll is done once the
   * axis is not in motion, and it times out after `timeout` milliseconds.
   */
  function MotionPoll(inbox: seq<string>, clock: Clock, k: nat, timeout: int): Run
  {
    ChecksConsume();
    Poll(MotionQuery, false, Some(timeout), inbox, clock, k)
  }

  /** The homing poll: as the motion poll, done once HOME is set, and without a timeout. */
  function HomePoll(inbox: seq<string>, clock: Clock, k: nat): Run
  {
    ChecksConsume();
    Poll(InitializedQuery, true, None, inbox, clock, k)
  }

  /** The catch block: a failed poll is followed by one stop command, whose own failure replaces the poll's. */
  function Recover(poll: Run): Run
  {
    if poll.result.Ok? then poll
    else
      var stop := RunScript(poll.rest, [StopCommand]);
      Run(if stop.result.Err? then stop.result else poll.result, poll.frames + stop.frames, stop.rest)
  }

  /** A motion command's run, then (when it succeeded) the guarded motion poll. */
  function WatchMotion(first: Run, clock: Clock, timeout: int): Run
  {
    if first.result.Err? then first
    else After(first.frames, Recover(MotionPoll(first.rest, clock, 0, timeout)))
  }

  /** The homing commands' run, then (when it succeeded) the guarded homing poll. */
  function WatchHoming(first: Run, clock: Clock): Run
  {
    if first.result.Err? then first
    else After(first.frames, Recover(HomePoll(first.rest, clock, 0)))
  }

  /** What is left of the input after `n` checks. */
  function ChecksRest(check: Check, inbox: seq<string>, n: nat): seq<string>
    decreases n
  {
    if n == 0 then inbox else ChecksRest(check, check(inbox).rest, n - 1)
  }

  /** The n + 1-th check reads on from where the n-th left off. */
  lemma {:induction false} ChecksRestLast(check: Check, inbox: seq<string>, n: nat)
    ensures ChecksRest(check, inbox, n + 1) == check(ChecksRest(check, inbox, n)).rest
    decreases n
  {
    if n > 0 {
      ChecksRestLast(check, check(inbox).rest, n - 1);
    }
  }

  /** `n` status-query frames. */
  function Queries(n: nat): (frames: seq<string>)
    ensures |frames| == n
    decreases n
  {
    if n == 0 then [] else [Frame(StatusCommand)] + Queries(n - 1)
  }

  /**
   * A check that lets the poll go on: it answered, not `settled`, within the
   * limit, and the delay after it was not cancelled.
   */
  predicate Continues(q: Result<bool>, settled: bool, limit: Option<int>, elapsed: nat, cancelled: bool)
  {
    q == Ok(!settled) && (limit.Some? ==> elapsed <= limit.value) && !cancelled
  }

  /** How the check that ends a poll decides its outcome. */
  predicate Stopped(q: Result<bool>, settled: bool, limit: Option<int>, elapsed: nat, cancelled: bool, result: Result<()>)
  {
    match q
    case Err(f) => result == Err(f)
    case Ok(v) =>
      if v == settled then result == Ok(())
      else if limit.Some? && elapsed > limit.value then result == Err(TimedOut)
      else cancelled && result == Err(Cancelled)
  }

  /** The checks k, ..., k + n - 1 all let the poll go on. */
  predicate Kept(check: Check, settled: bool, limit: Option<int>, inbox: seq<string>, clock: Clock, k: nat, n: nat)
  {
    forall i: nat :: i < n ==>
      Continues(check(ChecksRest(check, inbox, i)).result, settled, limit, clock.elapsed(k + i), clock.cancelled(k + i))
  }

  /** The first of n > 0 checks that kept the poll going, and the n - 1 after it. */
  lemma KeptFirst(check: Check, settled: bool, limit: Option<int>, inbox: seq<string>, clock: Clock, k: nat, n: nat)
    requires n > 0
    ensures Kept(check, settled, limit, inbox, clock, k, n) <==>
      Continues(check(inbox).result, settled, limit, clock.elapsed(k), clock.cancelled(k)) &&
      Kept(check, settled, limit, check(inbox).rest, clock, k + 1, n - 1)
  {
    var rest := check(inbox).rest;
    assert ChecksRest(check, inbox, 0) == inbox;
    forall i: nat | i < n - 1
      ensures ChecksRest(check, inbox, i + 1) == ChecksRest(check, rest, i) && k + (i + 1) == k + 1 + i
    {
    }
    if Continues(check(inbox).result, settled, limit, clock.elapsed(k), clock.cancelled(k)) &&
       Kept(check, settled, limit, rest, clock, k + 1, n - 1) {
      forall i: nat | i < n
        ensures Continues(check(ChecksRest(check, inbox, i)).result, settled, limit, clock.elapsed(k + i), clock.cancelled(k + i))
      {
        if i > 0 {
          assert ChecksRest(check, inbox, (i - 1) + 1) == ChecksRest(check, rest, i - 1);
        }
      }
    }
  }

  /** After `n` checks that kept it going, the poll goes on from the check k + n. */
  lemma {:induction false} PollUnroll(check: Check, settled: bool, limit: Option<int>, inbox: seq<string>, clock: Clock, k: nat, n: nat)
    requires Consumes(check) && Kept(check, settled, limit, inbox, clock, k, n)
    ensures Poll(check, settled, limit, inbox, clock, k) ==
      After(Queries(n), Poll(check, settled, limit, ChecksRest(check, inbox, n), clock, k + n))
    decreases n
  {
    var r := Poll(check, settled, limit, inbox, clock, k);
    if n == 0 {
      assert [] + r.frames == r.frames;
    } else {
      KeptFirst(check, settled, limit, inbox, clock, k, n);
      var rest := check(inbox).rest;
      PollUnroll(check, settled, limit, rest, clock, k + 1, n - 1);
      AfterTwice([Frame(StatusCommand)], Queries(n - 1), Poll(check, settled, limit, ChecksRest(check, rest, n - 1), clock, k + 1 + (n - 1)));
    }
  }

  /**
   * A poll that was kept going by `n` checks and not by the next one ends
   * at that check: it sends n + 1 queries, reads their replies, and the
   * check decides the outcome.
   */
  lemma PollEndsAt(check: Check, settled: bool, limit: Option<int>, inbox: seq<string>, clock: Clock, k: nat, n: nat)
    requires Consumes(check) && Kept(check, settled, limit, inbox, clock, k, n)
    requires !Continues(check(ChecksRest(check, inbox, n)).result, settled, limit, clock.elapsed(k + n), clock.cancelled(k + n))
    ensures var r := Poll(check, settled, limit, inbox, clock, k);
      r.frames == Queries(n + 1) && r.rest == ChecksRest(check, inbox, n + 1) &&
      Stopped(check(ChecksRest(check, inbox, n)).result, settled, limit, clock.elapsed(k + n), clock.cancelled(k + n), r.result)
  {
    PollUnroll(check, settled, limit, inbox, clock, k, n);
    ChecksRestLast(check, inbox, n);
    QueriesLast(n);
  }

  /** One more query frame at the end. */
  lemma {:induction false} QueriesLast(n: nat)
    ensures Queries(n + 1) == Queries(n) + [Frame(StatusCommand)]
    decreases n
  {
    if n > 0 {
      QueriesLast(n - 1);
      AppendTwice([Frame(StatusCommand)], Queries(n - 1), [Frame(StatusCommand)]);
    }
  }

  /** The checks before the last one of a poll kept it going, and the last one did not. */
  lemma {:induction false} PollHalts(check: Check, settled: bool, limit: Option<int>, inbox: seq<string>, clock: Clock, k: nat)
    requires Consumes(check)
    ensures var r := Poll(check, settled, limit, inbox, clock, k);
      |r.frames| >= 1 &&
      var n := |r.frames| - 1;
      Kept(check, settled, limit, inbox, clock, k, n) &&
      !Continues(check(ChecksRest(check, inbox, n)).result, settled, limit, clock.elapsed(k + n), clock.cancelled(k + n))
    decreases Pending(inbox)
  {
    var q := check(inbox);
    if Continues(q.result, settled, limit, clock.elapsed(k), clock.cancelled(k)) {
      PollHalts(check, settled, limit, q.rest, clock, k + 1);
      var m := |Poll(check, settled, limit, q.rest, clock, k + 1).frames| - 1;
      assert |Poll(check, settled, limit, inbox, clock, k).frames| == m + 2;
      KeptFirst(check, settled, limit, inbox, clock, k, m + 1);
      assert ChecksRest(check, inbox, m + 1) == ChecksRest(check, q.rest, m);
      assert k + 1 + m == k + (m + 1);
    } else {
      assert ChecksRest(check, inbox, 0) == inbox;
    }
  }

  /**
   * Every poll ends: it sends n + 1 status queries, the first n kept it
   * going, and the last one decides the outcome; it reads exactly the
   * replies of those queries.
   */
  lemma PollStops(check: Check, settled: bool, limit: Option<int>, inbox: seq<string>, clock: Clock, k: nat)
    requires Consumes(check)
    ensures var r := Poll(check, settled, limit, inbox, clock, k);
      |r.frames| >= 1 &&
      var n := |r.frames| - 1;
      r.frames == Queries(n + 1) && r.rest == ChecksRest(check, inbox, n + 1) && Kept(check, settled, limit, inbox, clock, k, n) &&
      Stopped(check(ChecksRest(check, inbox, n)).result, settled, limit, clock.elapsed(k + n), clock.cancelled(k + n), r.result)
  {
    PollHalts(check, settled, limit, inbox, clock, k);
    PollEndsAt(check, settled, limit, inbox, clock, k, |Poll(check, settled, limit, inbox, clock, k).frames| - 1);
  }

  /** The checks before the n-th kept the poll going, and the n-th finds `settled`. */
  predicate SettledAt(check: Check, settled: bool, limit: Option<int>, inbox: seq<string>, clock: Clock, k: nat, n: nat)
  {
    Kept(check, settled, limit, inbox, clock, k, n) && check(ChecksRest(check, inbox, n)).result == Ok(settled)
  }

  /**
   * The checks before the n-th kept the poll going, and the n-th finds it
   * still unsettled with the clock past the limit.
   */
  predicate TimedOutAt(check: Check, settled: bool, limit: Option<int>, inbox: seq<string>, clock: Clock, k: nat, n: nat)
  {
    Kept(check, settled, limit, inbox, clock, k, n) && check(ChecksRest(check, inbox, n)).result == Ok(!settled) &&
    limit.Some? && clock.elapsed(k + n) > limit.value
  }

  /**
   * A poll succeeds exactly when some check finds `settled` after checks
   * that all kept it going; it then ends at that check.
   */
  lemma PollSettles(check: Check, settled: bool, limit: Option<int>, inbox: seq<string>, clock: Clock, k: nat)
    requires Consumes(check)
    ensures Poll(check, settled, limit, inbox, clock, k).result.Ok? <==>
      exists n: nat :: SettledAt(check, settled, limit, inbox, clock, k, n)
    ensures forall n: nat :: SettledAt(check, settled, limit, inbox, clock, k, n) ==>
      var r := Poll(check, settled, limit, inbox, clock, k);
      r.result == Ok(()) && |r.frames| == n + 1 && r.rest == ChecksRest(check, inbox, n + 1)
  {
    var r := Poll(check, settled, limit, inbox, clock, k);
    PollStops(check, settled, limit, inbox, clock, k);
    if r.result.Ok? {
      assert SettledAt(check, settled, limit, inbox, clock, k, |r.frames| - 1);
    }
    forall n: nat | SettledAt(check, settled, limit, inbox, clock, k, n)
      ensures r.result == Ok(()) && |r.frames| == n + 1 && r.rest == ChecksRest(check, inbox, n + 1)
    {
      PollEndsAt(check, settled, limit, inbox, clock, k, n);
    }
  }

  /**
   * A poll with a limit, whose check never reports a timeout itself, times
   * out exactly when some check still finds it unsettled with the clock
   * past the limit, after checks that all kept it going; it then ends at
   * that check.
   */
  lemma PollTimesOut(check: Check, settled: bool, limit: Option<int>, inbox: seq<string>, clock: Clock, k: nat)
    requires Consumes(check)
    requires forall x :: check(x).result != Err(TimedOut)
    ensures Poll(check, settled, limit, inbox, clock, k).result == Err(TimedOut) <==>
      exists n: nat :: TimedOutAt(check, settled, limit, inbox, clock, k, n)
    ensures forall n: nat :: TimedOutAt(check, settled, limit, inbox, clock, k, n) ==>
      var r := Poll(check, settled, limit, inbox, clock, k);
      r.result == Err(TimedOut) && |r.frames| == n + 1 && r.rest == ChecksRest(check, inbox, n + 1)
  {
    var r := Poll(check, settled, limit, inbox, clock, k);
    PollStops(check, settled, limit, inbox, clock, k);
    if r.result == Err(TimedOut) {
      assert TimedOutAt(check, settled, limit, inbox, clock, k, |r.frames| - 1);
    }
    forall n: nat | TimedOutAt(check, settled, limit, inbox, clock, k, n)
      ensures r.result == Err(TimedOut) && |r.frames| == n + 1 && r.rest == ChecksRest(check, inbox, n + 1)
    {
      PollEndsAt(check, settled, limit, inbox, clock, k, n);
    }
  }

  /**
   * The motion poll ends normally exactly when, after n checks that each
   * found the axis in motion within the limit and no cancelled delay, the
   * check n finds it not in motion; it then sent n + 1 queries and read
   * their replies.
   */
  lemma MotionPollSettles(inbox: seq<string>, clock: Clock, k: nat, timeout: int)
    ensures MotionPoll(inbox, clock, k, timeout).result.Ok? <==>
      exists n: nat :: SettledAt(MotionQuery, false, Some(timeout), inbox, clock, k, n)
    ensures forall n: nat :: SettledAt(MotionQuery, false, Some(timeout), inbox, clock, k, n) ==>
      var r := MotionPoll(inbox, clock, k, timeout);
      r.result == Ok(()) && |r.frames| == n + 1 && r.rest == ChecksRest(MotionQuery, inbox, n + 1)
  {
    ChecksConsume();
    PollSettles(MotionQuery, false, Some(timeout), inbox, clock, k);
  }

  /**
   * The motion poll times out exactly when, after n checks that each found
   * the axis in motion within the limit and no cancelled delay, the check n
   * finds it still in motion with more than `timeout` milliseconds elapsed;
   * it then sent n + 1 queries and read their replies.
   */
  lemma MotionPollTimesOut(inbox: seq<string>, clock: Clock, k: nat, timeout: int)
    ensures MotionPoll(inbox, clock, k, timeout).result == Err(TimedOut) <==>
      exists n: nat :: TimedOutAt(MotionQuery, false, Some(timeout), inbox, clock, k, n)
    ensures forall n: nat :: TimedOutAt(MotionQuery, false, Some(timeout), inbox, clock, k, n) ==>
      var r := MotionPoll(inbox, clock, k, timeout);
      r.result == Err(TimedOut) && |r.frames| == n + 1 && r.rest == ChecksRest(MotionQuery, inbox, n + 1)
  {
    ChecksConsume();
    forall x ensures MotionQuery(x).result != Err(TimedOut) {
      StatusQueryFault(x);
    }
    PollTimesOut(MotionQuery, false, Some(timeout), inbox, clock, k);
  }

  /**
   * The homing poll ends normally exactly when, after n checks that each
   * found HOME clear and no cancelled delay, the check n finds HOME set; it
   * then sent n + 1 queries and read their replies.
   */
  lemma HomePollHomed(inbox: seq<string>, clock: Clock, k: nat)
    ensures HomePoll(inbox, clock, k).result.Ok? <==>
      exists n: nat :: SettledAt(InitializedQuery, true, None, inbox, clock, k, n)
    ensures forall n: nat :: SettledAt(InitializedQuery, true, None, inbox, clock, k, n) ==>
      var r := HomePoll(inbox, clock, k);
      r.result == Ok(()) && |r.frames| == n + 1 && r.rest == ChecksRest(InitializedQuery, inbox, n + 1)
  {
    ChecksConsume();
    PollSettles(InitializedQuery, true, None, inbox, clock, k);
  }

  /** Every frame is a status query. */
  predicate OnlyStatusQueries(frames: seq<string>)
  {
    forall i :: 0 <= i < |frames| ==> frames[i] == Frame(StatusCommand)
  }

  /** The motion poll sends status queries only, at least one. */
  lemma {:induction false} MotionPollQueries(inbox: seq<string>, clock: Clock, k: nat, timeout: int)
    ensures var r := MotionPoll(inbox, clock, k, timeout);
      |r.frames| >= 1 && OnlyStatusQueries(r.frames)
    decreases Pending(inbox)
  {
    var q := MotionQuery(inbox);
    if q.result.Ok? && q.result.value && clock.elapsed(k) <= timeout && !clock.cancelled(k) {
      MotionPollQueries(q.rest, clock, k + 1, timeout);
    }
  }

  /** The homing poll sends status queries only, at least one. */
  lemma {:induction false} HomePollQueries(inbox: seq<string>, clock: Clock, k: nat)
    ensures var r := HomePoll(inbox, clock, k);
      |r.frames| >= 1 && OnlyStatusQueries(r.frames)
    decreases Pending(inbox)
  {
    var q := InitializedQuery(inbox);
    if q.result.Ok? && !q.result.value && !clock.cancelled(k) {
      HomePollQueries(q.rest, clock, k + 1);
    }
  }

  /** Status queries are not stop commands. */
  lemma {:induction false} NoStopAmongQueries(frames: seq<string>)
    requires OnlyStatusQueries(frames)
    ensures CountFrame(frames, Frame(StopCommand)) == 0
    decreases |frames|
  {
    if frames != [] {
      FrameInjective(StatusCommand, StopCommand);
      NoStopAmongQueries(frames[1..]);
    }
  }

  /**
   * When the clock shows more than the limit at check `last`, a poll with
   * that limit gives up by that check at the latest: at most `last - k + 1`
   * status queries are sent.
   */
  lemma PollBounded(check: Check, settled: bool, limit: Option<int>, inbox: seq<string>, clock: Clock, k: nat, last: nat)
    requires Consumes(check) && limit.Some? && k <= last && clock.elapsed(last) > limit.value
    ensures |Poll(check, settled, limit, inbox, clock, k).frames| <= last - k + 1
  {
    PollStops(check, settled, limit, inbox, clock, k);
    // a longer poll would have been kept going by the check at `last`, past the limit
    var atLast := ChecksRest(check, inbox, last - k);
  }

  /** The motion poll gives up by the first check whose clock shows more than `timeout`. */
  lemma MotionPollBounded(inbox: seq<string>, clock: Clock, k: nat, timeout: int, last: nat)
    requires k <= last && clock.elapsed(last) > timeout
    ensures |MotionPoll(inbox, clock, k, timeout).frames| <= last - k + 1
  {
    ChecksConsume();
    PollBounded(MotionQuery, false, Some(timeout), inbox, clock, k, last);
  }

  /** The homing poll has no time limit: it never times out, however long it runs. */
  lemma {:induction false} HomePollNoTimeout(inbox: seq<string>, clock: Clock, k: nat)
    ensures HomePoll(inbox, clock, k).result != Err(TimedOut)
    decreases Pending(inbox)
  {
    var q := InitializedQuery(inbox);
    if q.result.Ok? && !q.result.value && !clock.cancelled(k) {
      HomePollNoTimeout(q.rest, clock, k + 1);
    } else if q.result.Err? {
      StatusQueryFault(inbox);
    }
  }

  /** A poll whose clock is never cancelled is never cancelled. */
  lemma {:induction false} MotionPollNotCancelled(inbox: seq<string>, clock: Clock, k: nat, timeout: int)
    requires forall j: nat :: !clock.cancelled(j)
    ensures MotionPoll(inbox, clock, k, timeout).result != Err(Cancelled)
    decreases Pending(inbox)
  {
    var q := MotionQuery(inbox);
    if q.result.Ok? && q.result.value && clock.elapsed(k) <= timeout {
      MotionPollNotCancelled(q.rest, clock, k + 1, timeout);
    } else if q.result.Err? {
      StatusQueryFault(inbox);
    }
  }

  /**
   * The catch block sends exactly one stop command when the poll failed and
   * none when it succeeded, as the last frame; the outcome fails exactly
   * when the poll did, with the stop command's fault if that failed too.
   */
  lemma RecoverStopsOnce(poll: Run)
    requires CountFrame(poll.frames, Frame(StopCommand)) == 0
    ensures var r := Recover(poll);
      CountFrame(r.frames, Frame(StopCommand)) == (if poll.result.Err? then 1 else 0) &&
      (poll.result.Err? ==> r.frames == poll.frames + [Frame(StopCommand)]) &&
      (r.result.Ok? <==> poll.result.Ok?)
    ensures var r := Recover(poll); var stop := Exchange(poll.rest, StopCommand);
      poll.result.Err? ==> r.result == (if stop.result.Err? then Err(stop.result.fault) else poll.result)
  {
    if poll.result.Err? {
      RunScriptSingle(poll.rest, StopCommand);
      CountFrameAppend(poll.frames, [Frame(StopCommand)], Frame(StopCommand));
    }
  }

  /**
   * A motion command that fails is reported as is, with no stop command
   * and no poll. One that succeeds is followed by the poll, and one stop
   * command is added exactly when the poll failed, as the last frame.
   */
  lemma WatchMotionStops(first: Run, clock: Clock, timeout: int)
    ensures first.result.Err? ==> WatchMotion(first, clock, timeout) == first
    ensures var w := WatchMotion(first, clock, timeout); var poll := MotionPoll(first.rest, clock, 0, timeout);
      first.result.Ok? ==>
        CountFrame(w.frames, Frame(StopCommand)) == CountFrame(first.frames, Frame(StopCommand)) + (if poll.result.Err? then 1 else 0) &&
        (w.result.Ok? <==> poll.result.Ok?) &&
        (poll.result.Err? ==> w.frames[|w.frames| - 1] == Frame(StopCommand))
  {
    if first.result.Ok? {
      var poll := MotionPoll(first.rest, clock, 0, timeout);
      MotionPollQueries(first.rest, clock, 0, timeout);
      NoStopAmongQueries(poll.frames);
      RecoverStopsOnce(poll);
      CountFrameAppend(first.frames, Recover(poll).frames, Frame(StopCommand));
    }
  }

  /** The same for homing: one stop command exactly when the homing poll failed. */
  lemma WatchHomingStops(first: Run, clock: Clock)
    ensures first.result.Err? ==> WatchHoming(first, clock) == first
    ensures var w := WatchHoming(first, clock); var poll := HomePoll(first.rest, clock, 0);
      first.result.Ok? ==>
        CountFrame(w.frames, Frame(StopCommand)) == CountFrame(first.frames, Frame(StopCommand)) + (if poll.result.Err? then 1 else 0) &&
        (w.result.Ok? <==> poll.result.Ok?) &&
        (poll.result.Err? ==> w.frames[|w.frames| - 1] == Frame(StopCommand))
  {
    if first.result.Ok? {
      var poll := HomePoll(first.rest, clock, 0);
      HomePollQueries(first.rest, clock, 0);
      NoStopAmongQueries(poll.frames);
      RecoverStopsOnce(poll);
      CountFrameAppend(first.frames, Recover(poll).frames, Frame(StopCommand));
    }
  }
}
