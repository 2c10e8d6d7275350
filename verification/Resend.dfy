/** Waiting for an acknowledgement and sending the same report again while it does not come
    (internal/hidlinux/resend.go).

    Each round of the loop is one choice of the select: the environment decides which of the
    ready cases is taken, when, what a report contains and how a write ends. */
module Resend {
  import opened Bytes

  type Report = seq<byte>

  /** One use of the device node: a write and how many bytes the node took of it, negative for an
      error, or a report read. */
  datatype IO = Wrote(report: Report, count: int, at: nat) | Got(report: Report, at: nat) {
    predicate Failed() {
      Wrote? && count != |report|
    }
  }

  const DEFAULT_MAX_ATTEMPTS := 4

  /** Durations and times are in nanoseconds. */
  datatype Policy = Policy(maxAttempts: int, readTimeout: nat, resendDelay: nat, silenceDelay: int) {
    function Attempts(): (n: int)
      ensures n >= 1
    {
      if maxAttempts <= 0 then DEFAULT_MAX_ATTEMPTS else maxAttempts
    }

    /** The longest a number of attempts may take. */
    function Budget(attempts: int): int {
      attempts * readTimeout
    }
  }

  /** Which timers the program acts on when they expire, before anything later. */
  datatype Honours = Honours(deadline: bool, resend: bool)

  /** The receiver's answer that carries mouse motion instead of the acknowledgement. Battery
      heartbeats and DPI stage events are not rejections. */
  predicate IsRejection(report: Report) {
    |report| == 5 && report[0] == 0x03 && report[1] == 0x10 && report[2] != 0x40 && report[2] != 0x10
  }

  datatype Outcome =
    | Acked
    | Cancelled
    | DeadlineExceeded
    | NoAckAfterFinal
    | TransferFailed
    | ReadFailed
    | StillWaiting // the environment was observed for no more rounds

  // ------------------------------------------------------------------ what a trace says

  function Writes(io: seq<IO>): (n: nat)
    ensures n <= |io|
  {
    if io == [] then 0 else Writes(io[..|io| - 1]) + (if io[|io| - 1].Wrote? then 1 else 0)
  }

  function Reads(io: seq<IO>): nat {
    |io| - Writes(io)
  }

  predicate EndsInFailedWrite(io: seq<IO>) {
    io != [] && io[|io| - 1].Failed()
  }

  predicate AllWritten(io: seq<IO>) {
    forall i | 0 <= i < |io| :: !io[i].Failed()
  }

  /** Nothing follows a failed write. */
  predicate OnlyLastFails(io: seq<IO>) {
    forall i | 0 <= i < |io| - 1 :: !io[i].Failed()
  }

  predicate Chronological(io: seq<IO>, started: nat, ended: nat) {
    && started <= ended
    && (forall i | 0 <= i < |io| :: started <= io[i].at <= ended)
    && (forall i, j | 0 <= i < j < |io| :: io[i].at <= io[j].at)
  }

  /** When the last copy was written; `started` is the time of the write before the trace. */
  function LastWrite(io: seq<IO>, started: nat): nat {
    if io == [] then started
    else if io[|io| - 1].Wrote? then io[|io| - 1].at
    else LastWrite(io[..|io| - 1], started)
  }

  /** When the first rejection since the last write was read, negative if none was. */
  function FirstRejection(io: seq<IO>): int {
    if io == [] || io[|io| - 1].Wrote? then -1
    else
      var earlier := FirstRejection(io[..|io| - 1]);
      if earlier < 0 && IsRejection(io[|io| - 1].report) then io[|io| - 1].at else earlier
  }

  /** When the next copy is due: some time after the first rejection since the last write or, without
      one, after that write. Negative when no copy is due, as long as nothing more arrives. */
  function Due(io: seq<IO>, started: nat, policy: Policy): int {
    if FirstRejection(io) >= 0 then FirstRejection(io) + policy.resendDelay
    else if policy.silenceDelay > 0 && 1 + Writes(io) < policy.Attempts() then
      LastWrite(io, started) + policy.silenceDelay
    else -1
  }

  /** Each copy was due, by the trace before it, and was not sent earlier; nor later if the program is punctual. */
  ghost predicate Scheduled(io: seq<IO>, started: nat, policy: Policy, punctual: bool) {
    forall i {:trigger io[i]} | 0 <= i < |io| && io[i].Wrote? ::
      var due := Due(io[..i], started, policy);
      0 <= due <= io[i].at && (punctual ==> io[i].at == due)
  }

  /** The loop repeats the payload and reads, and nothing it reads is the acknowledgement. */
  ghost predicate OnlyCopies(io: seq<IO>, payload: Report, ack: Report -> bool) {
    && (forall i | 0 <= i < |io| && io[i].Wrote? :: io[i].report == payload)
    && (forall i | 0 <= i < |io| && io[i].Got? :: !ack(io[i].report))
  }

  lemma TraceAppend(io: seq<IO>, next: IO, started: nat)
    ensures Writes(io + [next]) == Writes(io) + (if next.Wrote? then 1 else 0)
    ensures LastWrite(io + [next], started) == if next.Wrote? then next.at else LastWrite(io, started)
    ensures FirstRejection(io + [next])
         == if next.Wrote? then -1
            else if FirstRejection(io) < 0 && IsRejection(next.report) then next.at
            else FirstRejection(io)
  {
    assert (io + [next])[..|io|] == io;
  }

  lemma ScheduledAppend(io: seq<IO>, next: IO, started: nat, policy: Policy, punctual: bool)
    requires Scheduled(io, started, policy, punctual)
    requires next.Wrote? ==>
               var due := Due(io, started, policy);
               0 <= due <= next.at && (punctual ==> next.at == due)
    ensures Scheduled(io + [next], started, policy, punctual)
  {
    hide Due;
    var longer := io + [next];
    forall i {:trigger longer[i]} | 0 <= i < |longer| ensures longer[..i] == io[..i] {
    }
    assert io[..|io|] == io;
  }

  // ------------------------------------------------------------------ the loop

  /** The variables of the loop. The log is what the node sees; the number of attempts and of reports
      can be read off it. A negative `resend` is a timer that is not armed. `asked` counts the reads
      the node was asked for; it serves one at a time. */
  datatype Loop = Loop(io: seq<IO>, asked: nat, rejected: bool, resend: int, now: nat, deadline: int) {
    function Attempts(): int {
      1 + Writes(io)
    }

    /** Another copy, and the timers it restarts. */
    function Resent(policy: Policy, payload: Report, count: int): Loop {
      Loop(io + [Wrote(payload, count, now)], asked, false,
           if policy.silenceDelay > 0 && Attempts() + 1 < policy.Attempts() then now + policy.silenceDelay else -1,
           now, now + policy.readTimeout)
    }

    /** A copy that could not be written, or not all of it. */
    function Failed(payload: Report, count: int): Loop {
      this.(io := io + [Wrote(payload, count, now)])
    }

    /** A report that is not the acknowledgement: the next one is asked for, and the first rejection
        since the last write sets the time of the next write. */
    function Received(policy: Policy, report: Report): Loop {
      var first := !rejected && IsRejection(report);
      Loop(io + [Got(report, now)], asked + 1, rejected || first,
           if first then now + policy.resendDelay else resend, now, deadline)
    }

    /** What the caller learns when the loop ends now. */
    function Ended(outcome: Outcome): Ending {
      Ending(outcome, io, asked, now)
    }

    /** Time passes, but no timer that is honoured is overslept. */
    function Woken(wake: int, honours: Honours): Loop {
      if wake > now && (honours.deadline ==> wake <= deadline) && (honours.resend && resend >= 0 ==> wake <= resend)
      then this.(now := wake) else this
    }
  }

  ghost predicate Inv(
    loop: Loop, policy: Policy, payload: Report, ack: Report -> bool, started: nat, honours: Honours)
  {
    && loop.Attempts() <= policy.Attempts()
    && OnlyCopies(loop.io, payload, ack) && AllWritten(loop.io)
    && Chronological(loop.io, started, loop.now)
    && Scheduled(loop.io, started, policy, honours.resend)
    && loop.asked == Reads(loop.io) + 1
    && (loop.rejected <==> FirstRejection(loop.io) >= 0)
    && loop.resend == Due(loop.io, started, policy)
    && loop.deadline == LastWrite(loop.io, started) + policy.readTimeout
    && (honours.deadline ==> loop.now <= loop.deadline <= started + policy.Budget(loop.Attempts()))
    && (honours.resend && loop.resend >= 0 ==> loop.now <= loop.resend)
  }

  lemma BudgetStep(policy: Policy, attempts: int)
    ensures policy.Budget(attempts + 1) == policy.Budget(attempts) + policy.readTimeout
    ensures policy.Budget(1) == policy.readTimeout
  {
  }

  lemma Starts(policy: Policy, payload: Report, ack: Report -> bool, started: nat, honours: Honours)
    ensures var resend :=
              if policy.silenceDelay > 0 && policy.Attempts() > 1 then started + policy.silenceDelay else -1;
            var loop := Loop([], 1, false, resend, started, started + policy.readTimeout);
            Inv(loop, policy, payload, ack, started, honours)
  {
    BudgetStep(policy, 0);
  }

  lemma WokenKeepsInv(
    loop: Loop, policy: Policy, payload: Report, ack: Report -> bool, started: nat, honours: Honours, wake: int)
    requires Inv(loop, policy, payload, ack, started, honours)
    ensures Inv(loop.Woken(wake, honours), policy, payload, ack, started, honours)
  {
    hide FirstRejection, Writes, Scheduled, OnlyCopies, Due, LastWrite, Policy.Budget;
  }

  lemma ResentKeepsInv(
    loop: Loop, policy: Policy, payload: Report, ack: Report -> bool, started: nat, honours: Honours)
    requires Inv(loop, policy, payload, ack, started, honours)
    requires 0 <= loop.resend <= loop.now && loop.Attempts() < policy.Attempts()
    ensures Inv(loop.Resent(policy, payload, |payload|), policy, payload, ack, started, honours)
  {
    hide FirstRejection, Writes, Scheduled, LastWrite, Policy.Budget;
    var next := Wrote(payload, |payload|, loop.now);
    TraceAppend(loop.io, next, started);
    ScheduledAppend(loop.io, next, started, policy, honours.resend);
    BudgetStep(policy, loop.Attempts());
  }

  lemma ReceivedKeepsInv(
    loop: Loop, policy: Policy, payload: Report, ack: Report -> bool, started: nat, honours: Honours, report: Report)
    requires Inv(loop, policy, payload, ack, started, honours) && !ack(report)
    ensures Inv(loop.Received(policy, report), policy, payload, ack, started, honours)
  {
    hide FirstRejection, Writes, Scheduled, LastWrite, Policy.Budget;
    TraceAppend(loop.io, Got(report, loop.now), started);
    ScheduledAppend(loop.io, Got(report, loop.now), started, policy, honours.resend);
  }

  // ------------------------------------------------------------------ how it ends

  /** `asked` are the reads the node was asked for. One that is not answered when the call ends
      swallows the next report. */
  datatype Ending = Ending(outcome: Outcome, io: seq<IO>, asked: nat, ended: nat)

  /** What the caller may rely on, whatever the device and the clock did. */
  ghost predicate Correct(
    e: Ending, policy: Policy, payload: Report, ack: Report -> bool, started: nat, honours: Honours)
  {
    // At most the allowed number of writes, the one before the call included, each when it was due.
    && 1 + Writes(e.io) <= policy.Attempts()
    && Chronological(e.io, started, e.ended)
    && Scheduled(e.io, started, policy, honours.resend)
    // The first write that fails ends the call.
    && OnlyLastFails(e.io) && (e.outcome == TransferFailed <==> EndsInFailedWrite(e.io))
    // It succeeds on an acknowledgement, which is the last thing it reads, and on nothing else.
    && (e.outcome == Acked ==>
          && e.io != [] && e.io[|e.io| - 1].Got? && ack(e.io[|e.io| - 1].report)
          && OnlyCopies(e.io[..|e.io| - 1], payload, ack))
    && (e.outcome != Acked ==> OnlyCopies(e.io, payload, ack))
    // After a success every read has been answered, so the next phase loses no report.
    && e.asked == Reads(e.io) + (if e.outcome == Acked then 0 else 1)
    // It gives up at the earliest when an answer is overdue, or when the last copy was rejected.
    && (e.outcome == DeadlineExceeded ==> e.ended >= LastWrite(e.io, started) + policy.readTimeout)
    && (e.outcome == NoAckAfterFinal ==>
          && 1 + Writes(e.io) == policy.Attempts()
          && 0 <= FirstRejection(e.io) && FirstRejection(e.io) + policy.resendDelay <= e.ended)
    // It takes no longer than the attempts made, and a copy that is due is not put off.
    && (honours.deadline ==> e.ended <= started + policy.Budget(1 + Writes(e.io)))
    && (honours.resend && e.outcome != Acked && Due(e.io, started, policy) >= 0 ==>
          e.ended <= Due(e.io, started, policy))
  }

  /** With a silence delay below the read timeout, the call runs out of time only after the last copy, or
      while it waits to answer a rejection. */
  lemma NoEarlyGivingUp(
    e: Ending, policy: Policy, payload: Report, ack: Report -> bool, started: nat, honours: Honours)
    requires Correct(e, policy, payload, ack, started, honours) && honours.resend
    requires e.outcome == DeadlineExceeded && 0 < policy.silenceDelay < policy.readTimeout
    ensures
      || 1 + Writes(e.io) == policy.Attempts()
      || 0 <= FirstRejection(e.io) <= e.ended <= FirstRejection(e.io) + policy.resendDelay
  {
    hide Scheduled, OnlyCopies, FirstRejection, LastWrite;
    RejectionIsInTrace(e.io);
  }

  lemma {:induction false} RejectionIsInTrace(io: seq<IO>)
    ensures FirstRejection(io) >= 0 ==> exists i | 0 <= i < |io| :: io[i].Got? && io[i].at == FirstRejection(io)
  {
    if io != [] && io[|io| - 1].Got? {
      RejectionIsInTrace(io[..|io| - 1]);
      assert io[|io| - 1] in io;
    }
  }

  /** The answer that carries motion: five bytes 03 10 xx yy zz, but neither a heartbeat (xx is 40) nor the
      event of a DPI stage (xx is 10). */
  lemma RejectionIs(report: Report)
    ensures IsRejection(report) <==>
              exists x, y, z: byte :: report == [0x03, 0x10, x, y, z] && x != 0x40 && x != 0x10
  {
    if |report| == 5 && report[0] == 0x03 && report[1] == 0x10 {
      assert report == [0x03, 0x10, report[2], report[3], report[4]];
    }
  }

  lemma {:induction false} SinceLastWrite(io: seq<IO>, started: nat) returns (p: int)
    ensures -1 <= p < |io| && (p >= 0 ==> io[p].Wrote?)
    ensures forall j | p < j < |io| :: io[j].Got?
    ensures LastWrite(io, started) == if p < 0 then started else io[p].at
  {
    if io == [] {
      p := -1;
    } else if io[|io| - 1].Wrote? {
      p := |io| - 1;
    } else {
      p := SinceLastWrite(io[..|io| - 1], started);
    }
  }

  lemma {:induction false} FirstSinceWrite(io: seq<IO>, p: int) returns (q: int)
    requires -1 <= p < |io| && (p >= 0 ==> io[p].Wrote?) && forall j | p < j < |io| :: io[j].Got?
    ensures p < q <= |io| && forall j | p < j < q :: !IsRejection(io[j].report)
    ensures if q == |io| then FirstRejection(io) < 0 else IsRejection(io[q].report) && FirstRejection(io) == io[q].at
  {
    if |io| - 1 == p {
      q := |io|;
    } else {
      var front := io[..|io| - 1];
      q := FirstSinceWrite(front, p);
      if q == |front| && !IsRejection(io[q].report) {
        q := |io|;
      }
    }
  }

  /** Why a copy was sent, in terms of what the node saw: `p` is the write before it and `q` the first rejection
      since, if there was one. The number of writes is limited, to four unless it is configured. */
  lemma CopyIsDue(
    e: Ending, policy: Policy, payload: Report, ack: Report -> bool, started: nat, honours: Honours, i: nat)
    returns (p: int, q: int)
    requires Correct(e, policy, payload, ack, started, honours) && i < |e.io| && e.io[i].Wrote?
    ensures -1 <= p < q <= i && (p >= 0 ==> e.io[p].Wrote?) && forall j | p < j < i :: e.io[j].Got?
    ensures forall j | p < j < q :: !IsRejection(e.io[j].report)
    ensures q < i ==>
              && IsRejection(e.io[q].report)
              && e.io[i].at >= e.io[q].at + policy.resendDelay
              && (honours.resend ==> e.io[i].at == e.io[q].at + policy.resendDelay)
    ensures q == i ==>
              var last := if p < 0 then started else e.io[p].at;
              && policy.silenceDelay > 0 && e.io[i].at >= last + policy.silenceDelay
              && (honours.resend ==> e.io[i].at == last + policy.silenceDelay)
    ensures 1 + Writes(e.io) <= if policy.maxAttempts <= 0 then 4 else policy.maxAttempts
  {
    hide FirstRejection, LastWrite, IsRejection, OnlyCopies;
    var before := e.io[..i];
    p := SinceLastWrite(before, started);
    q := FirstSinceWrite(before, p);
  }

  lemma EndsWithoutAck(
    loop: Loop, policy: Policy, payload: Report, ack: Report -> bool, started: nat, honours: Honours, outcome: Outcome)
    requires Inv(loop, policy, payload, ack, started, honours) && outcome != Acked && outcome != TransferFailed
    requires outcome == NoAckAfterFinal ==> 0 <= loop.resend <= loop.now && loop.Attempts() >= policy.Attempts()
    requires outcome == DeadlineExceeded ==> loop.now >= loop.deadline
    ensures Correct(loop.Ended(outcome), policy, payload, ack, started, honours)
  {
    hide FirstRejection, Writes, Scheduled, LastWrite, Policy.Budget;
  }

  lemma EndsOnWrite(
    loop: Loop, policy: Policy, payload: Report, ack: Report -> bool, started: nat, honours: Honours, count: int)
    requires Inv(loop, policy, payload, ack, started, honours) && count != |payload|
    requires 0 <= loop.resend <= loop.now && loop.Attempts() < policy.Attempts()
    ensures Correct(loop.Failed(payload, count).Ended(TransferFailed), policy, payload, ack, started, honours)
  {
    hide FirstRejection, Writes, Scheduled, LastWrite, Policy.Budget;
    var next := Wrote(payload, count, loop.now);
    TraceAppend(loop.io, next, started);
    ScheduledAppend(loop.io, next, started, policy, honours.resend);
    BudgetStep(policy, loop.Attempts());
  }

  lemma EndsWithAck(
    loop: Loop, policy: Policy, payload: Report, ack: Report -> bool, started: nat, honours: Honours, report: Report)
    requires Inv(loop, policy, payload, ack, started, honours) && ack(report)
    ensures Correct(loop.(io := loop.io + [Got(report, loop.now)]).Ended(Acked), policy, payload, ack, started, honours)
  {
    hide FirstRejection, Writes, Scheduled, LastWrite, Policy.Budget;
    TraceAppend(loop.io, Got(report, loop.now), started);
    ScheduledAppend(loop.io, Got(report, loop.now), started, policy, honours.resend);
    assert (loop.io + [Got(report, loop.now)])[..|loop.io|] == loop.io;
  }

  /** The payload was written once before the call, at `started`. */
  method AwaitAck(policy: Policy, payload: Report, ack: Report -> bool, started: nat, rounds: nat, honours: Honours)
    returns (ending: Ending)
    ensures Correct(ending, policy, payload, ack, started, honours)
  {
    var loop := Loop([], 1, false, -1, started, started + policy.readTimeout);
    if policy.silenceDelay > 0 && policy.Attempts() > 1 {
      loop := loop.(resend := started + policy.silenceDelay);
    }
    Starts(policy, payload, ack, started, honours);
    hide Inv, Correct, Writes;
    for round := 0 to rounds
      invariant Inv(loop, policy, payload, ack, started, honours)
    {
      var wake: int := *;
      WokenKeepsInv(loop, policy, payload, ack, started, honours, wake);
      loop := loop.Woken(wake, honours);
      var outcome := StillWaiting;
      if {
        case true =>
          outcome := Cancelled;
        case loop.now >= loop.deadline =>
          outcome := DeadlineExceeded;
        case 0 <= loop.resend <= loop.now =>
          if loop.Attempts() >= policy.Attempts() {
            // The source also allows for silence here; the invariant rules it out.
            outcome := NoAckAfterFinal;
          } else {
            var count: int := *;
            if count != |payload| { // an error or a short write
              EndsOnWrite(loop, policy, payload, ack, started, honours, count);
              return loop.Failed(payload, count).Ended(TransferFailed);
            }
            ResentKeepsInv(loop, policy, payload, ack, started, honours);
            loop := loop.Resent(policy, payload, count);
          }
        case loop.asked > Reads(loop.io) =>
          var report: Report := *;
          if * {
            outcome := ReadFailed;
          } else if ack(report) {
            EndsWithAck(loop, policy, payload, ack, started, honours, report);
            return loop.(io := loop.io + [Got(report, loop.now)]).Ended(Acked);
          } else {
            ReceivedKeepsInv(loop, policy, payload, ack, started, honours, report);
            loop := loop.Received(policy, report);
          }
      }
      if outcome != StillWaiting {
        EndsWithoutAck(loop, policy, payload, ack, started, honours, outcome);
        return loop.Ended(outcome);
      }
    }
    EndsWithoutAck(loop, policy, payload, ack, started, honours, StillWaiting);
    return loop.Ended(StillWaiting);
  }
}
