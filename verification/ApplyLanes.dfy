/** The lanes of automatic settings (frontend/src/hooks/useDesktopWorkspace.ts): each key has at most
    one request in flight, and edits made meanwhile replace each other.

    The requests of a key are numbered in the order in which they are submitted. */
module ApplyLanes {
  import opened Text

  type Request = nat

  /** What the program keeps of a key. */
  datatype Lane = Lane(running: bool, next: Option<Request>)

  /** A lane with what has happened on it: how many requests were submitted, which were run, in
      order, and how many of these have completed. */
  datatype History = History(lane: Lane, submitted: nat, ran: seq<Request>, completed: nat)

  const NEW := History(Lane(false, None), 0, [], 0)

  datatype Event = Submit | Complete

  predicate Enabled(h: History, e: Event) {
    e.Complete? ==> h.lane.running
  }

  function Step(h: History, e: Event): History
    requires Enabled(h, e)
  {
    match e
    case Submit =>
      if h.lane.running then h.(lane := h.lane.(next := Some(h.submitted)), submitted := h.submitted + 1)
      else h.(lane := h.lane.(running := true), submitted := h.submitted + 1, ran := h.ran + [h.submitted])
    case Complete =>
      History(Lane(h.lane.next.Some?, None), h.submitted,
              if h.lane.next.Some? then h.ran + [h.lane.next.value] else h.ran, h.completed + 1)
  }

  predicate Possible(h: History, events: seq<Event>)
    decreases |events|
  {
    events == [] || (Enabled(h, events[0]) && Possible(Step(h, events[0]), events[1..]))
  }

  function Run(h: History, events: seq<Event>): History
    requires Possible(h, events)
    decreases |events|
  {
    if events == [] then h else Run(Step(h, events[0]), events[1..])
  }

  predicate Increasing(requests: seq<Request>) {
    forall i, j | 0 <= i < j < |requests| :: requests[i] < requests[j]
  }

  /** A request was submitted after the last one that was run. */
  predicate HasLater(h: History) {
    h.ran != [] && h.ran[|h.ran| - 1] < h.submitted - 1
  }

  ghost predicate Inv(h: History) {
    // The requests that were run are a subsequence of those that were submitted.
    && Increasing(h.ran) && (forall i | 0 <= i < |h.ran| :: h.ran[i] < h.submitted)
    // At most one of them is not complete, and one is exactly while the lane is running.
    && |h.ran| == h.completed + (if h.lane.running then 1 else 0)
    // The running one is superseded exactly when a later edit is queued, and that is the last edit.
    && (h.lane.next.Some? <==> h.lane.running && HasLater(h))
    && (h.lane.next.Some? ==> h.lane.next.value == h.submitted - 1)
    // An idle lane has run the last request.
    && (h.ran == [] <==> h.submitted == 0)
    && (!h.lane.running && h.submitted > 0 ==> h.ran[|h.ran| - 1] == h.submitted - 1)
  }

  lemma StepKeepsInv(h: History, e: Event)
    requires Inv(h) && Enabled(h, e)
    ensures Inv(Step(h, e))
  {
    var next := Step(h, e);
    if next.ran != h.ran {
      assert forall i | 0 <= i < |h.ran| :: next.ran[i] == h.ran[i] <= h.ran[|h.ran| - 1] < next.ran[|h.ran|];
    }
  }

  lemma {:induction false} RunKeepsInv(h: History, events: seq<Event>)
    requires Inv(h) && Possible(h, events)
    ensures Inv(Run(h, events)) && h.submitted <= Run(h, events).submitted && h.ran <= Run(h, events).ran
    decreases |events|
  {
    if events != [] {
      StepKeepsInv(h, events[0]);
      RunKeepsInv(Step(h, events[0]), events[1..]);
    }
  }

  /** Every interleaving of edits and completions on a new lane. */
  lemma EveryRunIsConflated(events: seq<Event>)
    requires Possible(NEW, events)
    ensures Inv(Run(NEW, events))
  {
    RunKeepsInv(NEW, events);
  }

  /** Edits while a request is in flight cost one more request, for the last of them, however many
      they are. */
  lemma {:induction false} DragSendsTwo(h: History, edits: seq<Event>)
    requires Inv(h) && h.lane.running && h.lane.next.None?
    requires edits != [] && forall i | 0 <= i < |edits| :: edits[i] == Submit
    ensures Possible(h, edits + [Complete, Complete])
    ensures var end := Run(h, edits + [Complete, Complete]);
            && !end.lane.running
            && end.submitted == h.submitted + |edits|
            && end.ran == h.ran + [end.submitted - 1]
  {
    EditsAreQueued(h, edits, [Complete, Complete]);
    var queued := h.(lane := Lane(true, Some(h.submitted + |edits| - 1)), submitted := h.submitted + |edits|);
    var running := Step(queued, Complete);
    assert [Complete, Complete][1..] == [Complete] && [Complete][1..] == [];
    assert Run(running, [Complete]) == Run(Step(running, Complete), []);
    assert Run(queued, [Complete, Complete]) == Run(running, [Complete]);
  }

  lemma {:induction false} EditsAreQueued(h: History, edits: seq<Event>, more: seq<Event>)
    requires h.lane.running && edits != [] && forall i | 0 <= i < |edits| :: edits[i] == Submit
    ensures var queued := h.(lane := Lane(true, Some(h.submitted + |edits| - 1)), submitted := h.submitted + |edits|);
            && (Possible(h, edits + more) <==> Possible(queued, more))
            && (Possible(h, edits + more) ==> Run(h, edits + more) == Run(queued, more))
    decreases |edits|
  {
    assert (edits + more)[1..] == edits[1..] + more;
    if |edits| > 1 {
      EditsAreQueued(Step(h, Submit), edits[1..], more);
    } else {
      assert edits[1..] + more == more;
    }
  }

  class Workspace {
    var lanes: map<string, Lane>
    ghost var histories: map<string, History>

    constructor ()
      ensures Valid() && histories == map[]
    {
      lanes, histories := map[], map[];
    }

    ghost predicate Valid()
      reads this
    {
      && lanes.Keys == histories.Keys
      && forall key | key in lanes :: histories[key].lane == lanes[key] && Inv(histories[key])
    }

    ghost function HistoryOf(key: string): History
      reads this
    {
      if key in histories then histories[key] else NEW
    }

    /** An edit. `request` is its number; it is run at once or queued in place of an earlier one. */
    method RunLatestAutomaticApply(key: string, request: Request) returns (run: bool)
      requires Valid() && request == HistoryOf(key).submitted
      modifies this
      ensures Valid() && histories == old(histories)[key := Step(old(HistoryOf(key)), Submit)]
      ensures run <==> HistoryOf(key).ran == old(HistoryOf(key)).ran + [request]
    {
      hide Inv;
      NewIsConflated();
      ghost var before := HistoryOf(key);
      StepKeepsInv(before, Submit);
      var lane := if key in lanes then lanes[key] else Lane(false, None);
      histories := histories[key := Step(before, Submit)];
      if lane.running {
        lanes := lanes[key := lane.(next := Some(request))];
        return false;
      }
      lanes := lanes[key := lane.(running := true)];
      return true;
    }

    /** The running request of a key has ended, well or badly. */
    method Finish(key: string) returns (queued: Option<Request>)
      requires Valid() && key in lanes && lanes[key].running
      modifies this
      ensures Valid() && histories == old(histories)[key := Step(old(HistoryOf(key)), Complete)]
      ensures HistoryOf(key).ran == old(HistoryOf(key)).ran + (if queued.Some? then [queued.value] else [])
    {
      hide Inv;
      StepKeepsInv(HistoryOf(key), Complete);
      histories := histories[key := Step(HistoryOf(key), Complete)];
      queued := lanes[key].next;
      lanes := lanes[key := Lane(queued.Some?, None)];
    }

    /** What a request in flight asks before it shows its result: it is true exactly when there was a
        later edit of the same key. */
    method Superseded(key: string) returns (superseded: bool)
      requires Valid() && key in lanes && lanes[key].running
      ensures superseded <==> HasLater(histories[key])
    {
      return lanes[key].next.Some?;
    }
  }

  lemma NewIsConflated()
    ensures Inv(NEW)
  {
  }
}
