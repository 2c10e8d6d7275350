/** The upload of macros as one composite command (internal/hidlinux/macro_upload.go).

    The assignment report may be sent again until the receiver acknowledges it; the chunks that
    follow are sent once each. The progress that is returned must say exactly how far that got,
    at whatever point the command failed. */
module MacroUpload {
  import opened Bytes
  import opened Resend

  datatype Assignment = AssignmentNotStarted | AssignmentUnknown | AssignmentConfirmed
  datatype Upload = UploadNotStarted | UploadPossiblyPartial | UploadConfirmed
  datatype Progress = Progress(assignment: Assignment, upload: Upload)

  predicate MatchesRemapACK(report: Report) {
    report == [0x03, 0x10, 0x50, 0x00, 0x08]
  }

  const FINAL_STATUS: Report := [0x03, 0x10, 0x50, 0x00, 0x09]

  /** Reports that may come in between: heartbeats and late acknowledgements of other reports. */
  predicate KnownInterleave(report: Report) {
    && |report| == 5 && report[0] == 3 && report[1] == 0x10
    && (report[2] == 0x40 || (report[2] == 0x50 && report[3] == 0 && report[4] in {4, 5, 6, 8}))
  }

  /** The parts of what a command does to the node. */
  datatype Parts = Parts(assignment: seq<IO>, upload: seq<IO>, status: seq<IO>) {
    function Trace(): seq<IO> {
      assignment + upload + status
    }
  }

  /** The assignment phase: nothing, or copies of one report, each when it is due, with what was read
      in between. A write that fails is the last of them. */
  ghost predicate AssignmentPhase(io: seq<IO>, report: Report, policy: Policy, honours: Honours) {
    io != [] ==>
      && io[0].Wrote? && Scheduled(io[1..], io[0].at, policy, honours.resend)
      && 1 <= Writes(io) <= policy.Attempts()
      && (forall i | 0 <= i < |io| && io[i].Wrote? :: io[i].report == report)
      && (forall i | 0 <= i < |io| - 1 && io[i].Got? :: !MatchesRemapACK(io[i].report))
      && OnlyLastFails(io)
  }

  predicate EndsWithAck(io: seq<IO>) {
    io != [] && io[|io| - 1].Got? && MatchesRemapACK(io[|io| - 1].report)
  }

  /** In nanoseconds. */
  const SPACING := 1_200_000_000

  /** The upload phase: the first chunks, once each, in order and spaced out, up to the first failure. */
  ghost predicate UploadPhase(io: seq<IO>, chunks: seq<Report>) {
    && |io| <= |chunks|
    && (forall i | 0 <= i < |io| :: io[i].Wrote? && io[i].report == chunks[i])
    && (forall i, j | 0 <= i < j < |io| :: io[i].at + SPACING <= io[j].at)
    && OnlyLastFails(io)
  }

  /** The status phase only reads, and goes on only past reports that may come in between. */
  predicate StatusPhase(io: seq<IO>) {
    && (forall i | 0 <= i < |io| :: io[i].Got?)
    && (forall i | 0 <= i < |io| - 1 :: KnownInterleave(io[i].report))
  }

  predicate EndsWithFinal(io: seq<IO>) {
    io != [] && io[|io| - 1].Got? && io[|io| - 1].report == FINAL_STATUS
  }

  /** What the trace of the node proves. */
  function Evidence(parts: Parts): Progress {
    Progress(
      if parts.assignment == [] then AssignmentNotStarted
      else if EndsWithAck(parts.assignment) then AssignmentConfirmed else AssignmentUnknown,
      if EndsWithFinal(parts.status) then UploadConfirmed
      else if parts.upload != [] then UploadPossiblyPartial else UploadNotStarted)
  }

  /** Each part is entered only when the one before it is complete. */
  ghost predicate Phases(parts: Parts, report: Report, chunks: seq<Report>, policy: Policy, honours: Honours) {
    && AssignmentPhase(parts.assignment, report, policy, honours)
    && UploadPhase(parts.upload, chunks)
    && StatusPhase(parts.status)
    && (parts.upload != [] || parts.status != [] ==> EndsWithAck(parts.assignment))
    && (parts.status != [] ==> |parts.upload| == |chunks| && AllWritten(parts.upload))
  }

  /** What the reports of the phases are, byte by byte. A final status that comes before the acknowledgement
      authorizes nothing: the chunks wait for 03 10 50 00 08, and the command for 03 10 50 00 09 after them. */
  lemma PhasesInBytes(parts: Parts, report: Report, chunks: seq<Report>, policy: Policy, honours: Honours)
    requires Phases(parts, report, chunks, policy, honours)
    ensures parts.upload != [] || parts.status != [] ==>
              && parts.assignment != []
              && var last := parts.assignment[|parts.assignment| - 1];
                 last.Got? && last.report == [0x03, 0x10, 0x50, 0x00, 0x08]
    ensures (forall e | e in parts.assignment && e.Got? :: e.report != [0x03, 0x10, 0x50, 0x00, 0x08]) ==>
              parts.upload == [] && parts.status == [] && Evidence(parts).assignment != AssignmentConfirmed
    ensures forall i | 0 <= i < |parts.assignment| - 1 && parts.assignment[i].Got? ::
              parts.assignment[i].report != [0x03, 0x10, 0x50, 0x00, 0x08]
    ensures forall i | 0 <= i < |parts.status| - 1 ::
              var read := parts.status[i].report;
              && |read| == 5 && read[0] == 0x03 && read[1] == 0x10
              && (read[2] == 0x40 || (read[2] == 0x50 && read[3] == 0x00 && read[4] in {0x04, 0x05, 0x06, 0x08}))
    ensures forall i, j | 0 <= i < j < |parts.upload| :: parts.upload[i].at + 1_200_000_000 <= parts.upload[j].at
    ensures Evidence(parts).assignment == AssignmentNotStarted <==> parts.assignment == []
    ensures Evidence(parts).assignment == AssignmentConfirmed <==>
              && parts.assignment != []
              && var last := parts.assignment[|parts.assignment| - 1];
                 last.Got? && last.report == [0x03, 0x10, 0x50, 0x00, 0x08]
    ensures Evidence(parts).upload == UploadPossiblyPartial ==> parts.upload != []
    ensures Evidence(parts).upload == UploadNotStarted ==> parts.upload == []
    ensures Evidence(parts).upload == UploadConfirmed <==>
              && parts.status != []
              && var last := parts.status[|parts.status| - 1];
                 last.Got? && last.report == [0x03, 0x10, 0x50, 0x00, 0x09]
  {
    hide Scheduled, Writes;
  }

  lemma LastReads()
    ensures !EndsWithAck([]) && !EndsWithFinal([])
    ensures forall io: seq<IO> | io != [] ::
              EndsWithAck(io) <==> io[|io| - 1].Got? && io[|io| - 1].report == [0x03, 0x10, 0x50, 0x00, 0x08]
    ensures forall io: seq<IO> | io != [] ::
              EndsWithFinal(io) <==> io[|io| - 1].Got? && io[|io| - 1].report == [0x03, 0x10, 0x50, 0x00, 0x09]
  {
  }

  /** Nothing is done to the node after a failed write, and when the final status came all writes had succeeded. */
  lemma FailureIsLast(parts: Parts, report: Report, chunks: seq<Report>, policy: Policy, honours: Honours)
    requires Phases(parts, report, chunks, policy, honours)
    ensures OnlyLastFails(parts.Trace())
    ensures EndsWithFinal(parts.status) ==> AllWritten(parts.Trace())
  {
    hide Scheduled, Writes, KnownInterleave, MatchesRemapACK;
    var io, first, later := parts.Trace(), |parts.assignment|, |parts.assignment| + |parts.upload|;
    forall i | 0 <= i < |io|
      ensures i < |io| - 1 || EndsWithFinal(parts.status) ==> !io[i].Failed()
    {
      assert io[i] == if i < first then parts.assignment[i]
                      else if i < later then parts.upload[i - first] else parts.status[i - later];
    }
  }

  lemma Chronologies(left: seq<IO>, right: seq<IO>, started: nat, between: nat, ended: nat)
    requires Chronological(left, started, between) && Chronological(right, between, ended)
    ensures Chronological(left + right, started, ended)
  {
    var io := left + right;
    forall i | 0 <= i < |io| ensures started <= io[i].at <= ended {
      assert io[i] == if i < |left| then left[i] else right[i - |left|];
    }
    forall i, j | 0 <= i < j < |io| ensures io[i].at <= io[j].at {
      assert io[i] == if i < |left| then left[i] else right[i - |left|];
      assert io[j] == if j < |left| then left[j] else right[j - |left|];
    }
  }

  lemma NothingYet(started: nat)
    ensures Chronological([], started, started)
  {
  }

  lemma TimePasses(io: seq<IO>, started: nat, ended: nat, later: nat)
    requires Chronological(io, started, ended) && ended <= later
    ensures Chronological(io, started, later)
  {
  }

  lemma OneMore(io: seq<IO>, next: IO, started: nat, ended: nat)
    requires Chronological(io, started, ended) && ended <= next.at
    ensures Chronological(io + [next], started, next.at)
  {
    Chronologies(io, [next], started, ended, next.at);
  }

  lemma NoChunks(chunks: seq<Report>)
    ensures UploadPhase([], chunks) && AllWritten([])
  {
  }

  lemma OneMoreChunk(io: seq<IO>, next: IO, chunks: seq<Report>)
    requires UploadPhase(io, chunks) && AllWritten(io) && |io| < |chunks|
    requires next.Wrote? && next.report == chunks[|io|]
    requires io != [] ==> next.at >= io[|io| - 1].at + SPACING
    ensures UploadPhase(io + [next], chunks)
    ensures !next.Failed() ==> AllWritten(io + [next])
  {
    var more, last := io + [next], |io| - 1;
    forall i, j | 0 <= i < j < |more| ensures more[i].at + SPACING <= more[j].at {
      if j == |io| && i < last {
        assert io[i].at + SPACING <= io[last].at;
      }
    }
  }

  /** A time that is not before another one. */
  method Later(now: nat) returns (later: nat)
    ensures later >= now
  {
    var passed: int := *;
    return if passed < 0 then now else now + passed;
  }

  method AwaitMacroStatus(started: nat, rounds: nat) returns (ok: bool, io: seq<IO>, ended: nat)
    ensures StatusPhase(io) && Chronological(io, started, ended)
    ensures ok <==> EndsWithFinal(io)
    ensures ok <==> io != [] && io[|io| - 1].Got? && io[|io| - 1].report == [0x03, 0x10, 0x50, 0x00, 0x09]
  {
    hide Chronological, KnownInterleave;
    NothingYet(started);
    io, ended := [], started;
    for round := 0 to rounds
      invariant StatusPhase(io) && Chronological(io, started, ended) && !EndsWithFinal(io)
      invariant forall i | 0 <= i < |io| :: KnownInterleave(io[i].report)
    {
      if * {
        return false, io, ended; // out of time, or the read failed
      }
      ghost var before := ended;
      ended := Later(ended);
      var report: Report := *;
      if |report| > 64 {
        TimePasses(io, started, before, ended);
        return false, io, ended;
      }
      OneMore(io, Got(report, ended), started, before);
      io := io + [Got(report, ended)];
      if report == FINAL_STATUS {
        return true, io, ended;
      }
      if !KnownInterleave(report) {
        return false, io, ended;
      }
    }
    return false, io, ended;
  }

  lemma AssignmentTrace(report: Report, ending: Ending, policy: Policy, started: nat, honours: Honours)
    requires Correct(ending, policy, report, MatchesRemapACK, started, honours)
    ensures var io := [Wrote(report, |report|, started)] + ending.io;
            && AssignmentPhase(io, report, policy, honours)
            && Chronological(io, started, ending.ended)
            && (EndsWithAck(io) <==> ending.outcome == Acked)
            && (EndsInFailedWrite(io) <==> ending.outcome == TransferFailed)
  {
    hide Scheduled, FirstRejection, LastWrite, Due, MatchesRemapACK, Chronological, Writes, AssignmentPhase;
    var first := Wrote(report, |report|, started);
    var io := [first] + ending.io;
    NothingYet(started);
    OneMore([], first, started, started);
    Chronologies([first], ending.io, started, started, ending.ended);
    assert [] + [first] == [first];
    CopiesOnly(report, ending, policy, started, honours);
    CopiesArePhase(report, ending.io, policy, started, honours);
    assert ending.io != [] ==> io[|io| - 1] == ending.io[|ending.io| - 1];
  }

  lemma CopiesArePhase(report: Report, rest: seq<IO>, policy: Policy, started: nat, honours: Honours)
    requires Scheduled(rest, started, policy, honours.resend) && 1 + Writes(rest) <= policy.Attempts()
               && OnlyLastFails(rest)
    requires forall i | 0 <= i < |rest| && rest[i].Wrote? :: rest[i].report == report
    requires forall i | 0 <= i < |rest| - 1 && rest[i].Got? :: !MatchesRemapACK(rest[i].report)
    ensures AssignmentPhase([Wrote(report, |report|, started)] + rest, report, policy, honours)
  {
    hide Scheduled, MatchesRemapACK, Writes;
    var first := Wrote(report, |report|, started);
    var io := [first] + rest;
    WritesPrepend(first, rest);
    assert io[1..] == rest;
    forall i | 0 <= i < |io| ensures i == 0 || io[i] == rest[i - 1] {
    }
  }

  lemma CopiesOnly(report: Report, ending: Ending, policy: Policy, started: nat, honours: Honours)
    requires Correct(ending, policy, report, MatchesRemapACK, started, honours)
    ensures forall i | 0 <= i < |ending.io| && ending.io[i].Wrote? :: ending.io[i].report == report
    ensures forall i | 0 <= i < |ending.io| - 1 && ending.io[i].Got? :: !MatchesRemapACK(ending.io[i].report)
    ensures ending.outcome != Acked ==>
              forall i | 0 <= i < |ending.io| && ending.io[i].Got? :: !MatchesRemapACK(ending.io[i].report)
  {
    hide Scheduled, FirstRejection, LastWrite, Due, MatchesRemapACK, Chronological, Writes;
    if ending.outcome == Acked {
      var front := ending.io[..|ending.io| - 1];
      forall i | 0 <= i < |front| ensures front[i] == ending.io[i] {
      }
    }
  }

  lemma {:induction false} WritesPrepend(head: IO, io: seq<IO>)
    ensures Writes([head] + io) == Writes(io) + (if head.Wrote? then 1 else 0)
  {
    if io == [] {
      assert [head] + io == [head];
      assert [head][..0] == [];
    } else {
      WritesPrepend(head, io[..|io| - 1]);
      assert ([head] + io)[..|io|] == [head] + io[..|io| - 1];
    }
  }

  datatype ChunksEnd = AllSent | ChunkFailed | Withdrawn

  /** Sends the chunks in order and stops at the first failure. */
  method SendChunks(chunks: seq<Report>, started: nat)
    returns (end: ChunksEnd, io: seq<IO>, upload: Upload, ended: nat)
    ensures UploadPhase(io, chunks) && Chronological(io, started, ended)
    ensures end == AllSent ==> |io| == |chunks| && AllWritten(io)
    ensures end == ChunkFailed <==> EndsInFailedWrite(io)
    ensures upload == if io != [] then UploadPossiblyPartial else UploadNotStarted
  {
    hide Chronological, UploadPhase;
    NothingYet(started);
    NoChunks(chunks);
    io, upload, ended := [], UploadNotStarted, started;
    while |io| < |chunks|
      invariant |io| <= |chunks|
      invariant UploadPhase(io, chunks) && AllWritten(io) && Chronological(io, started, ended)
      invariant 0 < |io| < |chunks| ==> ended >= io[|io| - 1].at + SPACING
      invariant upload == if io != [] then UploadPossiblyPartial else UploadNotStarted
    {
      if * {
        return Withdrawn, io, upload, ended; // the binding is stale or the command is cancelled
      }
      ghost var before := ended;
      ended := Later(ended);
      upload := UploadPossiblyPartial;
      var chunk, count: int := chunks[|io|], *;
      OneMore(io, Wrote(chunk, count, ended), started, before);
      OneMoreChunk(io, Wrote(chunk, count, ended), chunks);
      io := io + [Wrote(chunk, count, ended)];
      if count != |chunk| { // an error or a short write
        return ChunkFailed, io, upload, ended;
      }
      if |io| < |chunks| {
        if * {
          return Withdrawn, io, upload, ended; // cancelled while waiting
        }
        before := ended;
        ended := Later(ended + SPACING);
        TimePasses(io, started, before, ended);
      }
    }
    return AllSent, io, upload, ended;
  }

  /** `parts` are the parts of the trace `io`; the progress says no more and no less than they prove, and
      the command succeeds exactly when all of them are complete. */
  method SendAssignment(
    policy: Policy, report: Report, chunks: seq<Report>, started: nat, rounds: nat, honours: Honours)
    returns (progress: Progress, ok: bool, io: seq<IO>, parts: Parts, ended: nat)
    ensures io == parts.Trace() && Phases(parts, report, chunks, policy, honours)
    ensures Chronological(io, started, ended) && OnlyLastFails(io)
    ensures progress == Evidence(parts)
    ensures ok <==> progress == Progress(AssignmentConfirmed, UploadConfirmed)
    ensures ok <==> EndsWithFinal(parts.status)
    ensures ok <==>
              && parts.status != []
              && var last := parts.status[|parts.status| - 1];
                 last.Got? && last.report == [0x03, 0x10, 0x50, 0x00, 0x09]
    ensures parts.upload != [] ==>
              && parts.assignment != []
              && var last := parts.assignment[|parts.assignment| - 1];
                 last.Got? && last.report == [0x03, 0x10, 0x50, 0x00, 0x08]
    ensures ok ==> AllWritten(io)
  {
    hide AssignmentPhase, UploadPhase, MatchesRemapACK, Writes, Correct;
    progress, io, parts, ended := Progress(AssignmentNotStarted, UploadNotStarted), [], Parts([], [], []), started;
    NoPhases(report, chunks, policy, honours);
    LastReads();
    hide EndsWithAck, EndsWithFinal;
    if * {
      return progress, false, io, parts, ended; // no turn, no such device or no node
    }
    progress := progress.(assignment := AssignmentUnknown);
    var count: int := *;
    io := [Wrote(report, count, started)];
    parts := parts.(assignment := io);
    SingleWrite(report, count, started, policy, honours);
    if count != |report| {
      return progress, false, io, parts, ended;
    }
    var ending := AwaitAck(policy, report, MatchesRemapACK, started, rounds, honours);
    AssignmentTrace(report, ending, policy, started, honours);
    io, ended := io + ending.io, ending.ended;
    parts := parts.(assignment := io);
    if ending.outcome != Acked {
      FailureIsLast(parts, report, chunks, policy, honours);
      return progress, false, io, parts, ended;
    }
    progress := progress.(assignment := AssignmentConfirmed);
    var end, upload, status, complete, before := AllSent, UploadNotStarted, [], false, ended;
    var sent;
    end, sent, upload, ended := SendChunks(chunks, before);
    progress := progress.(upload := upload);
    Chronologies(io, sent, started, before, ended);
    io, parts := io + sent, parts.(upload := sent);
    FailureIsLast(parts, report, chunks, policy, honours);
    if end != AllSent {
      return progress, false, io, parts, ended;
    }
    if * {
      return progress, false, io, parts, ended; // the binding is stale
    }
    before := ended;
    complete, status, ended := AwaitMacroStatus(before, rounds);
    Chronologies(io, status, started, before, ended);
    io, parts := io + status, parts.(status := status);
    FailureIsLast(parts, report, chunks, policy, honours);
    if !complete {
      return progress, false, io, parts, ended;
    }
    progress := progress.(upload := UploadConfirmed);
    return progress, true, io, parts, ended;
  }

  lemma NoPhases(report: Report, chunks: seq<Report>, policy: Policy, honours: Honours)
    ensures Phases(Parts([], [], []), report, chunks, policy, honours)
  {
  }

  lemma SingleWrite(report: Report, count: int, at: nat, policy: Policy, honours: Honours)
    ensures AssignmentPhase([Wrote(report, count, at)], report, policy, honours)
  {
    assert [Wrote(report, count, at)][..0] == [];
  }
}
