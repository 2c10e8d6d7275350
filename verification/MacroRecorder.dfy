/** Recording a macro (frontend/src/macros/recorder.ts): what the recorder keeps of a stream of
    inputs, and why the device accepts it. */
module MacroRecorder {
  import opened Bytes
  import opened MacroBlocks
  import opened MacroAdmission

  datatype DelayPolicy = Minimum | Fixed | Recorded

  datatype Input = Input(kind: string, action: Action, key: Option<string>)

  datatype PreviousDown = PreviousDown(index: nat, time: real)

  datatype Take = Take(
    policy: DelayPolicy, events: seq<DraftEvent>, held: seq<Input>, previousDown: Option<PreviousDown>)

  function StartTake(policy: DelayPolicy): Take {
    Take(policy, [], [], None)
  }

  function ActionText(action: Action): string {
    if action == Down then DOWN else UP
  }

  function DraftOf(input: Input, delay: int): DraftEvent {
    DraftEvent(input.kind, ActionText(input.action), delay, input.key)
  }

  /** The same physical input, whether pressed or released. */
  predicate Same(a: Input, b: Input) {
    a.kind == b.kind && a.key == b.key
  }

  predicate Involves(e: DraftEvent, input: Input) {
    e.kind == input.kind && e.key == input.key
  }

  predicate IsHeld(held: seq<Input>, input: Input) {
    held != [] && (Same(held[0], input) || IsHeld(held[1..], input))
  }

  /** Rounds half up, as the language of the interface does. */
  function Round(x: real): int {
    (x + 0.5).Floor
  }

  function ElapsedDelay(time: real, previous: real): (delay: int)
    ensures delay >= 0
  {
    if Round(time - previous) > 0 then Round(time - previous) else 0
  }

  function NewDelay(policy: DelayPolicy): int {
    if policy == Fixed then 10 else 0
  }

  /** Key repeats and releases of inputs that are not held are dropped. */
  method CaptureInput(take: Take, input: Input, time: real) returns (next: Take)
    requires take.previousDown.Some? ==> take.previousDown.value.index < |take.events|
    ensures next == Captured(take, input, time)
  {
    var held := IsHeld(take.held, input);
    if (input.action == Down && held) || (input.action == Up && !held) {
      return take;
    }
    var events := take.events;
    if input.action == Down && take.policy == Recorded && take.previousDown.Some? {
      var previous := take.previousDown.value;
      events := events[previous.index := events[previous.index].(delay := ElapsedDelay(time, previous.time))];
    }
    var previousDown := if input.action == Down then Some(PreviousDown(|events|, time)) else take.previousDown;
    events := events + [DraftOf(input, NewDelay(take.policy))];
    next := take.(events := events, previousDown := previousDown,
                  held := if input.action == Down then take.held + [input] else Without(take.held, input));
  }

  function Without(held: seq<Input>, input: Input): seq<Input> {
    if held == [] then []
    else (if Same(held[0], input) then [] else [held[0]]) + Without(held[1..], input)
  }

  predicate Dropped(take: Take, input: Input) {
    (input.action == Down) == IsHeld(take.held, input)
  }

  /** The events of a take, after the delay of the last press has become known. */
  function Settled(take: Take, input: Input, time: real): (events: seq<DraftEvent>)
    requires take.previousDown.Some? ==> take.previousDown.value.index < |take.events|
    ensures |events| == |take.events|
  {
    if input.action == Down && take.policy == Recorded && take.previousDown.Some? then
      var previous := take.previousDown.value;
      take.events[previous.index := take.events[previous.index].(delay := ElapsedDelay(time, previous.time))]
    else take.events
  }

  function Captured(take: Take, input: Input, time: real): Take
    requires take.previousDown.Some? ==> take.previousDown.value.index < |take.events|
  {
    if Dropped(take, input) then take
    else
      Take(take.policy,
           Settled(take, input, time) + [DraftOf(input, NewDelay(take.policy))],
           if input.action == Down then take.held + [input] else Without(take.held, input),
           if input.action == Down then Some(PreviousDown(|take.events|, time)) else take.previousDown)
  }

  function Releases(held: seq<Input>, delay: int): (events: seq<DraftEvent>)
    ensures |events| == |held|
  {
    seq(|held|, i requires 0 <= i < |held| => DraftOf(held[i].(action := Up), delay))
  }

  /** Releases what is still held, in the order in which it was pressed. */
  function StopTake(take: Take): seq<DraftEvent> {
    take.events + Releases(take.held, NewDelay(take.policy))
  }

  /** The take after a stream of inputs with their times. */
  function Record(policy: DelayPolicy, stream: seq<(Input, real)>): (take: Take)
    ensures take.previousDown.Some? ==> take.previousDown.value.index < |take.events|
  {
    if stream == [] then StartTake(policy)
    else
      var last := stream[|stream| - 1];
      Captured(Record(policy, stream[..|stream| - 1]), last.0, last.1)
  }

  // ------------------------------------------------------------------ what a take looks like

  /** Whether an input is down after the events: what its last event says. */
  predicate Pressed(events: seq<DraftEvent>, input: Input) {
    events != []
    && var last := events[|events| - 1];
       if Involves(last, input) then last.action == DOWN else Pressed(events[..|events| - 1], input)
  }

  function InputOf(e: DraftEvent): Input {
    Input(e.kind, if e.action == DOWN then Down else Up, e.key)
  }

  /** Presses and releases of every input alternate, a press coming first. */
  ghost predicate Alternates(events: seq<DraftEvent>) {
    forall i | 0 <= i < |events| ::
      && events[i].action in {DOWN, UP} && events[i].delay >= 0
      && (events[i].action == DOWN <==> !Pressed(events[..i], InputOf(events[i])))
  }

  /** Alternating, and everything is released in the end. */
  ghost predicate Complete(events: seq<DraftEvent>) {
    Alternates(events) && forall input :: !Pressed(events, input)
  }

  predicate Distinct(held: seq<Input>) {
    held == [] || (!IsHeld(held[1..], held[0]) && Distinct(held[1..]))
  }

  ghost predicate Inv(take: Take) {
    && Alternates(take.events)
    && (forall input :: Pressed(take.events, input) <==> IsHeld(take.held, input))
    && Distinct(take.held)
    && (take.policy != Recorded ==> forall i | 0 <= i < |take.events| :: take.events[i].delay == NewDelay(take.policy))
  }

  lemma PressedAppend(events: seq<DraftEvent>, e: DraftEvent, input: Input)
    ensures Pressed(events + [e], input) == if Involves(e, input) then e.action == DOWN else Pressed(events, input)
  {
    assert (events + [e])[..|events|] == events;
  }

  lemma AlternatesAppend(events: seq<DraftEvent>, e: DraftEvent)
    requires Alternates(events) && e.action in {DOWN, UP} && e.delay >= 0
    requires e.action == DOWN <==> !Pressed(events, InputOf(e))
    ensures Alternates(events + [e])
  {
    assert (events + [e])[..|events|] == events;
    forall i | 0 <= i < |events| ensures (events + [e])[..i] == events[..i] {
    }
  }

  /** Changing delays changes nothing but delays. */
  lemma {:induction false} PressedIgnoresDelays(left: seq<DraftEvent>, right: seq<DraftEvent>, input: Input)
    requires |left| == |right| && forall i | 0 <= i < |left| :: left[i] == right[i].(delay := left[i].delay)
    ensures Pressed(left, input) == Pressed(right, input)
  {
    if left != [] {
      PressedIgnoresDelays(left[..|left| - 1], right[..|right| - 1], input);
    }
  }

  lemma SettledAlternates(take: Take, input: Input, time: real)
    requires take.previousDown.Some? ==> take.previousDown.value.index < |take.events|
    requires Alternates(take.events)
    ensures Alternates(Settled(take, input, time))
    ensures forall other :: Pressed(Settled(take, input, time), other) == Pressed(take.events, other)
  {
    var events := Settled(take, input, time);
    forall other ensures Pressed(events, other) == Pressed(take.events, other) {
      PressedIgnoresDelays(events, take.events, other);
    }
    forall i | 0 <= i < |events|
      ensures Pressed(events[..i], InputOf(events[i])) == Pressed(take.events[..i], InputOf(take.events[i]))
    {
      PressedIgnoresDelays(events[..i], take.events[..i], InputOf(events[i]));
    }
  }

  lemma {:induction false} WithoutRemoves(held: seq<Input>, input: Input, other: Input)
    requires Distinct(held)
    ensures IsHeld(Without(held, input), other) <==> IsHeld(held, other) && !Same(other, input)
    ensures Distinct(Without(held, input))
  {
    if held != [] {
      var rest := Without(held[1..], input);
      WithoutRemoves(held[1..], input, other);
      WithoutRemoves(held[1..], input, held[0]);
      assert ([held[0]] + rest)[1..] == rest;
      if Same(held[0], input) {
        assert Without(held, input) == rest;
        if Same(other, input) {
          SameIsHeld(held[1..], held[0], other);
        }
      }
    }
  }

  lemma {:induction false} HeldAppend(held: seq<Input>, input: Input, other: Input)
    ensures IsHeld(held + [input], other) <==> IsHeld(held, other) || Same(input, other)
    ensures Distinct(held) && !IsHeld(held, input) ==> Distinct(held + [input])
  {
    if held == [] {
      assert held + [input] == [input];
    } else {
      assert (held + [input])[1..] == held[1..] + [input];
      HeldAppend(held[1..], input, other);
      HeldAppend(held[1..], input, held[0]);
    }
  }

  lemma {:induction false} SameIsHeld(held: seq<Input>, a: Input, b: Input)
    requires Same(a, b)
    ensures IsHeld(held, a) == IsHeld(held, b)
  {
    if held != [] {
      SameIsHeld(held[1..], a, b);
    }
  }

  lemma CaptureKeepsInv(take: Take, input: Input, time: real)
    requires take.previousDown.Some? ==> take.previousDown.value.index < |take.events|
    requires Inv(take)
    ensures Inv(Captured(take, input, time))
  {
    if !Dropped(take, input) {
      var settled, e := Settled(take, input, time), DraftOf(input, NewDelay(take.policy));
      var next := Captured(take, input, time);
      SettledAlternates(take, input, time);
      assert InputOf(e) == input;
      AlternatesAppend(settled, e);
      forall other ensures Pressed(next.events, other) <==> IsHeld(next.held, other) {
        PressedAppend(settled, e, other);
        HeldAppend(take.held, input, other);
        WithoutRemoves(take.held, input, other);
      }
      HeldAppend(take.held, input, input);
      WithoutRemoves(take.held, input, input);
    }
  }

  lemma {:induction false} RecordKeepsInv(policy: DelayPolicy, stream: seq<(Input, real)>)
    ensures Inv(Record(policy, stream)) && Record(policy, stream).policy == policy
  {
    if stream != [] {
      var last := stream[|stream| - 1];
      RecordKeepsInv(policy, stream[..|stream| - 1]);
      CaptureKeepsInv(Record(policy, stream[..|stream| - 1]), last.0, last.1);
    }
  }

  lemma ReleaseFirst(events: seq<DraftEvent>, held: seq<Input>, delay: int)
    requires held != [] && Alternates(events) && Distinct(held) && delay >= 0
    requires forall input :: Pressed(events, input) <==> IsHeld(held, input)
    ensures var released := events + [DraftOf(held[0].(action := Up), delay)];
            && Alternates(released)
            && forall input :: Pressed(released, input) <==> IsHeld(held[1..], input)
  {
    hide Alternates;
    var e := DraftOf(held[0].(action := Up), delay);
    AlternatesAppend(events, e);
    forall input ensures Pressed(events + [e], input) <==> IsHeld(held[1..], input) {
      PressedAppend(events, e, input);
      if Same(held[0], input) {
        SameIsHeld(held[1..], held[0], input);
      }
    }
  }

  lemma {:induction false} ReleasesComplete(events: seq<DraftEvent>, held: seq<Input>, delay: int)
    requires Alternates(events) && Distinct(held) && delay >= 0
    requires forall input :: Pressed(events, input) <==> IsHeld(held, input)
    ensures Complete(events + Releases(held, delay))
    decreases |held|
  {
    hide Alternates, Pressed;
    if held == [] {
      assert events + Releases(held, delay) == events;
    } else {
      var e := DraftOf(held[0].(action := Up), delay);
      ReleaseFirst(events, held, delay);
      ReleasesComplete(events + [e], held[1..], delay);
      assert Releases(held, delay) == [e] + Releases(held[1..], delay);
      assert events + [e] + Releases(held[1..], delay) == events + Releases(held, delay);
    }
  }

  /** Whatever the stream of inputs, a stopped take is complete, with non-negative delays. */
  lemma StoppedTakeIsComplete(policy: DelayPolicy, stream: seq<(Input, real)>)
    ensures Complete(StopTake(Record(policy, stream)))
  {
    RecordKeepsInv(policy, stream);
    var take := Record(policy, stream);
    ReleasesComplete(take.events, take.held, NewDelay(policy));
  }

  // ------------------------------------------------------------------ what is recorded

  /** The last thing the stream says about an input is that it was pressed, with entry `j`. */
  predicate LastWord(stream: seq<(Input, real)>, input: Input, j: int) {
    && 0 <= j < |stream| && stream[j].0 == input.(action := Down)
    && forall k | j < k < |stream| :: stream[k].0 != input.(action := stream[k].0.action)
  }

  ghost predicate LastPressed(stream: seq<(Input, real)>, input: Input) {
    exists j :: LastWord(stream, input, j)
  }

  lemma OneMoreWord(stream: seq<(Input, real)>, last: (Input, real), input: Input, j: int)
    ensures LastWord(stream + [last], input, j)
         == if Same(last.0, input) then j == |stream| && last.0.action == Down else LastWord(stream, input, j)
  {
    var more := stream + [last];
    assert more[|stream|] == last;
    if LastWord(stream, input, j) && !Same(last.0, input) {
      assert forall k | j < k < |more| :: more[k].0 != input.(action := more[k].0.action);
    }
    if LastWord(more, input, j) && j < |stream| {
      assert stream[j] == more[j] && forall k | j < k < |stream| :: stream[k] == more[k];
    }
  }

  lemma LastPressedStep(stream: seq<(Input, real)>, last: (Input, real), input: Input)
    ensures LastPressed(stream + [last], input)
         == if Same(last.0, input) then last.0.action == Down else LastPressed(stream, input)
  {
    forall j ensures LastWord(stream + [last], input, j)
                  == if Same(last.0, input) then j == |stream| && last.0.action == Down else LastWord(stream, input, j)
    {
      OneMoreWord(stream, last, input, j);
    }
    hide LastWord;
    assert LastWord(stream + [last], input, |stream|) || !Same(last.0, input) || last.0.action == Up;
    if j :| LastWord(stream, input, j) {
      assert LastWord(stream + [last], input, j) || Same(last.0, input);
    }
  }

  lemma {:induction false} HeldIsLastPressed(policy: DelayPolicy, stream: seq<(Input, real)>, input: Input)
    ensures IsHeld(Record(policy, stream).held, input) <==> LastPressed(stream, input)
  {
    hide LastPressed;
    if stream == [] {
      NothingLastPressed(input);
    } else {
      var front, last := stream[..|stream| - 1], stream[|stream| - 1];
      HeldIsLastPressed(policy, front, input);
      HeldIsLastPressed(policy, front, last.0);
      assert stream == front + [last];
      LastPressedStep(front, last, input);
      RecordKeepsInv(policy, front);
      var take := Record(policy, front);
      HeldAppend(take.held, last.0, input);
      WithoutRemoves(take.held, last.0, input);
      if Same(last.0, input) {
        SameIsHeld(take.held, last.0, input);
      }
    }
  }

  lemma NothingLastPressed(input: Input)
    ensures !LastPressed([], input)
  {
  }

  lemma {:induction false} WithoutOne(held: seq<Input>, input: Input) returns (i: nat)
    requires Distinct(held) && IsHeld(held, input)
    ensures i < |held| && Same(held[i], input) && Without(held, input) == held[..i] + held[i + 1..]
  {
    if Same(held[0], input) {
      i := 0;
      SameIsHeld(held[1..], held[0], input);
      WithoutNone(held[1..], input);
    } else {
      i := WithoutOne(held[1..], input);
      assert held[..i + 1] + held[i + 2..] == [held[0]] + (held[1..][..i] + held[1..][i + 1..]);
      i := i + 1;
    }
  }

  lemma {:induction false} WithoutNone(held: seq<Input>, input: Input)
    requires !IsHeld(held, input)
    ensures Without(held, input) == held
  {
    if held != [] {
      WithoutNone(held[1..], input);
    }
  }

  /** What one more input adds to a take: nothing if it repeats the last word of the stream about that
      input, or releases one of which there was no word, and otherwise one event, after the others. The
      list of held inputs is in the order of the presses. */
  lemma OneMoreInput(policy: DelayPolicy, stream: seq<(Input, real)>, input: Input, time: real, pressed: bool)
    requires pressed <==>
               exists j :: 0 <= j < |stream| && stream[j].0 == input.(action := Down)
                 && forall k | j < k < |stream| :: stream[k].0 != input.(action := stream[k].0.action)
    ensures var take, next := Record(policy, stream), Record(policy, stream + [(input, time)]);
            if (input.action == Down) == pressed then next == take
            else
              && |next.events| == |take.events| + 1
              && next.events[|take.events|]
                   == DraftEvent(input.kind, if input.action == Down then "down" else "up",
                                 if policy == Fixed then 10 else 0, input.key)
              && (forall i | 0 <= i < |take.events| ::
                    && next.events[i] == take.events[i].(delay := next.events[i].delay)
                    && (policy != Recorded ==> next.events[i] == take.events[i]))
              && (input.action == Down ==> next.held == take.held + [input])
              && (input.action == Up ==>
                    exists i :: 0 <= i < |take.held| && take.held[i] == input.(action := take.held[i].action)
                      && next.held == take.held[..i] + take.held[i + 1..])
  {
    var take := Record(policy, stream);
    assert (stream + [(input, time)])[..|stream|] == stream;
    HeldIsLastPressed(policy, stream, input);
    assert pressed <==> LastPressed(stream, input) by {
      if pressed {
        var j :| 0 <= j < |stream| && stream[j].0 == input.(action := Down)
          && forall k | j < k < |stream| :: stream[k].0 != input.(action := stream[k].0.action);
        assert LastWord(stream, input, j);
      }
    }
    hide LastPressed;
    RecordKeepsInv(policy, stream);
    CapturedIs(take, input, time);
    hide Captured, Inv;
  }

  lemma CapturedIs(take: Take, input: Input, time: real)
    requires take.previousDown.Some? ==> take.previousDown.value.index < |take.events|
    requires Distinct(take.held)
    ensures var next := Captured(take, input, time);
            if (input.action == Down) == IsHeld(take.held, input) then next == take
            else
              && next.events[..|take.events|] == Settled(take, input, time)
              && next.events == Settled(take, input, time) + [DraftOf(input, NewDelay(take.policy))]
              && (forall i | 0 <= i < |take.events| ::
                    Settled(take, input, time)[i] == take.events[i].(delay := Settled(take, input, time)[i].delay))
              && (take.policy != Recorded ==> Settled(take, input, time) == take.events)
              && (input.action == Down ==> next.held == take.held + [input])
              && (input.action == Up ==>
                    exists i :: 0 <= i < |take.held| && take.held[i] == input.(action := take.held[i].action)
                      && next.held == take.held[..i] + take.held[i + 1..])
  {
    if input.action == Up && IsHeld(take.held, input) {
      var i := WithoutOne(take.held, input);
    }
  }

  /** Stopping adds a release for every held input, in that order. */
  lemma ReleasesAre(take: Take, i: nat)
    requires i < |take.held|
    ensures |StopTake(take)| == |take.events| + |take.held| && take.events <= StopTake(take)
    ensures StopTake(take)[|take.events| + i]
              == DraftEvent(take.held[i].kind, "up", if take.policy == Fixed then 10 else 0, take.held[i].key)
  {
  }

  /** A delay is the nearest whole number of milliseconds, the later one of two, and never negative. */
  lemma ElapsedIs(time: real, previous: real)
    ensures time <= previous ==> ElapsedDelay(time, previous) == 0
    ensures time >= previous ==> -0.5 < ElapsedDelay(time, previous) as real - (time - previous) <= 0.5
  {
  }

  // ------------------------------------------------------------------ recorded delays

  /** The inputs of a stream that were not dropped, with their times. */
  function Accepted(policy: DelayPolicy, stream: seq<(Input, real)>): seq<(Input, real)> {
    if stream == [] then []
    else
      var front, last := stream[..|stream| - 1], stream[|stream| - 1];
      Accepted(policy, front) + (if Dropped(Record(policy, front), last.0) then [] else [last])
  }

  predicate IsPress(accepted: seq<(Input, real)>, i: int) {
    0 <= i < |accepted| && accepted[i].0.action == Down
  }

  /** The next press after a press, whatever input it is of. */
  ghost predicate IsNextPress(accepted: seq<(Input, real)>, i: int, j: int) {
    IsPress(accepted, i) && IsPress(accepted, j) && i < j && forall k | i < k < j :: !IsPress(accepted, k)
  }

  /** Every event is an accepted input; a press waits, rounded, until the next press, and everything else
      does not wait. */
  ghost predicate Timed(take: Take, accepted: seq<(Input, real)>) {
    && |take.events| == |accepted|
    && (forall i | 0 <= i < |accepted| :: take.events[i] == DraftOf(accepted[i].0, take.events[i].delay))
    && (forall i, j | IsNextPress(accepted, i, j) :: take.events[i].delay == ElapsedDelay(accepted[j].1, accepted[i].1))
    && (forall i | 0 <= i < |accepted| && !IsPress(accepted, i) :: take.events[i].delay == 0)
    && (if take.previousDown.None? then forall i :: !IsPress(accepted, i)
        else
          var last := take.previousDown.value;
          && IsPress(accepted, last.index) && last.time == accepted[last.index].1
          && take.events[last.index].delay == 0
          && forall i | i > last.index :: !IsPress(accepted, i))
  }

  lemma CaptureKeepsTimed(take: Take, accepted: seq<(Input, real)>, input: Input, time: real)
    requires take.previousDown.Some? ==> take.previousDown.value.index < |take.events|
    requires take.policy == Recorded && Timed(take, accepted) && !Dropped(take, input)
    ensures Timed(Captured(take, input, time), accepted + [(input, time)])
  {
    var next, more := Captured(take, input, time), accepted + [(input, time)];
    var n := |accepted|;
    assert forall i | i != n :: IsPress(more, i) == IsPress(accepted, i);
    assert IsPress(more, n) == (input.action == Down);
    forall i, j | IsNextPress(more, i, j)
      ensures next.events[i].delay == ElapsedDelay(more[j].1, more[i].1)
    {
      if j < n {
        assert IsNextPress(accepted, i, j);
      }
    }
  }

  lemma NothingIsTimed(policy: DelayPolicy)
    ensures Timed(Record(policy, []), Accepted(policy, []))
  {
  }

  lemma DroppedChangesNothing(take: Take, input: Input, time: real)
    requires take.previousDown.Some? ==> take.previousDown.value.index < |take.events|
    ensures Captured(take, input, time).policy == take.policy
    ensures Dropped(take, input) ==> Captured(take, input, time) == take
  {
  }

  /** Under the recorded policy the delays of a take are the times between its presses. */
  lemma {:induction false} DelaysAreBetweenPresses(stream: seq<(Input, real)>)
    ensures Record(Recorded, stream).policy == Recorded
    ensures Timed(Record(Recorded, stream), Accepted(Recorded, stream))
  {
    hide Timed, Dropped, Captured;
    if stream == [] {
      NothingIsTimed(Recorded);
    } else {
      var front, last := stream[..|stream| - 1], stream[|stream| - 1];
      var take, accepted := Record(Recorded, front), Accepted(Recorded, front);
      DelaysAreBetweenPresses(front);
      DroppedChangesNothing(take, last.0, last.1);
      if Dropped(take, last.0) {
        assert Accepted(Recorded, stream) == accepted;
      } else {
        CaptureKeepsTimed(take, accepted, last.0, last.1);
        assert Accepted(Recorded, stream) == accepted + [(last.0, last.1)];
      }
    }
  }

  // ------------------------------------------------------------------ the device accepts it

  /** The table knows every input of the take, and different inputs by different codes. */
  ghost predicate Covers(table: KeyTable, events: seq<DraftEvent>) {
    && (forall i | 0 <= i < |events| :: DraftMappable(table, events[i]))
    && (forall i, j | 0 <= i < |events| && 0 <= j < |events| ::
          Code(table, Stored(events[i])) == Code(table, Stored(events[j])) ==> Involves(events[i], InputOf(events[j])))
  }

  /** A code is held by a press exactly when the input with that code is down. */
  lemma {:induction false} HolderIsPressed(table: KeyTable, events: seq<DraftEvent>, n: nat, i: nat)
    requires ProperTable(table) && Covers(table, events) && n <= |events| && i < |events|
    requires forall j | 0 <= j < |events| :: events[j].action in {DOWN, UP}
    ensures var holder := Holder(table, StoredAll(events), n, Code(table, Stored(events[i])));
            && (holder >= 0 <==> Pressed(events[..n], InputOf(events[i])))
            && (holder >= 0 ==> Involves(events[holder], InputOf(events[i])))
  {
    hide Holder, Pressed, Code, Involves, ProperTable, Covers;
    if n == 0 {
      NothingPressed(table, events, Code(table, Stored(events[i])), InputOf(events[i]));
    } else {
      HolderIsPressed(table, events, n - 1, i);
      assert StoredAll(events)[n - 1] == Stored(events[n - 1]);
      HolderStep(table, StoredAll(events), n - 1, Code(table, Stored(events[i])));
      PressedStep(events, n, InputOf(events[i]));
      CodeIsInput(table, events, n - 1, i);
    }
  }

  lemma NothingPressed(table: KeyTable, events: seq<DraftEvent>, code: byte, input: Input)
    ensures Holder(table, StoredAll(events), 0, code) < 0 && !Pressed(events[..0], input)
  {
  }

  lemma PressedStep(events: seq<DraftEvent>, n: nat, input: Input)
    requires 0 < n <= |events|
    ensures Pressed(events[..n], input)
         == if Involves(events[n - 1], input) then events[n - 1].action == DOWN else Pressed(events[..n - 1], input)
  {
    assert events[..n][..n - 1] == events[..n - 1];
  }

  lemma CodeIsInput(table: KeyTable, events: seq<DraftEvent>, j: nat, i: nat)
    requires ProperTable(table) && Covers(table, events) && i < |events| && j < |events|
    ensures Code(table, Stored(events[j])) == Code(table, Stored(events[i])) <==>
              Involves(events[j], InputOf(events[i]))
  {
  }

  lemma {:induction false} HolderHasCode(table: KeyTable, events: seq<Event>, n: nat, code: byte)
    requires n <= |events|
    ensures var holder := Holder(table, events, n, code); holder >= 0 ==> Code(table, events[holder]) == code
  {
    hide Code;
    if n > 0 {
      HolderHasCode(table, events, n - 1, code);
    }
  }

  /** A complete take passes the held-key check of both gates. */
  lemma CompleteIsBalanced(table: KeyTable, events: seq<DraftEvent>)
    requires ProperTable(table) && Complete(events) && Covers(table, events)
    ensures AllMappable(table, StoredAll(events)) && Balanced(table, StoredAll(events))
  {
    hide Code, DraftMappable, Pressed, Holder, Mappable, ProperTable;
    var stored := StoredAll(events);
    forall i | 0 <= i < |events|
      ensures Mappable(table, stored[i]) && Fits(table, stored, i)
    {
      assert stored[i] == Stored(events[i]);
      DraftIsMappable(table, events[i]);
      HolderIsPressed(table, events, i, i);
    }
    assert events[..|events|] == events;
    forall code: byte ensures Free(table, stored, code) {
      var holder := Holder(table, stored, |stored|, code);
      if holder >= 0 {
        HolderHasCode(table, stored, |stored|, code);
        HolderIsPressed(table, events, |events|, holder);
      }
    }
  }

  lemma {:induction false} ShortDelaysNeedNoExtension(mapped: seq<TimedEvent>)
    requires forall i | 0 <= i < |mapped| :: mapped[i].delay < EXTENDED
    ensures Extensions(mapped) == 0
  {
    if mapped != [] {
      ShortDelaysNeedNoExtension(mapped[1..]);
    }
  }

  /** Under the fixed and the minimum policy every take that the table covers is admitted, as long
      as it has neither too many events nor none. */
  lemma RecordedTakeIsAdmitted(
    table: KeyTable, policy: DelayPolicy, stream: seq<(Input, real)>, repeat: int, mode: byte)
    requires policy != Recorded && ProperTable(table)
    requires Covers(table, StopTake(Record(policy, stream)))
    ensures Admissible(table, StoredAll(StopTake(Record(policy, stream))), repeat, mode)
       <==> 1 <= |StopTake(Record(policy, stream))| <= MAX_EVENTS && 1 <= repeat <= 255 && mode <= 2
  {
    hide Covers, Complete, Balanced, Mappable, Extensions, Code;
    var take := Record(policy, stream);
    var events := StopTake(take);
    RecordKeepsInv(policy, stream);
    StoppedTakeIsComplete(policy, stream);
    CompleteIsBalanced(table, events);
    AdmissibleIs(table, StoredAll(events), repeat, mode);
    assert forall i | 0 <= i < |events| :: events[i].delay == NewDelay(policy);
    ShortDelaysNeedNoExtension(Mapped(table, StoredAll(events)));
  }

  /** Under the recorded policy only the delays can still keep a take out. */
  lemma RecordedDelaysDecide(
    table: KeyTable, policy: DelayPolicy, stream: seq<(Input, real)>, repeat: int, mode: byte)
    requires ProperTable(table) && Covers(table, StopTake(Record(policy, stream)))
    ensures var stored := StoredAll(StopTake(Record(policy, stream)));
            Admissible(table, stored, repeat, mode) <==> Encodable(Mapped(table, stored), repeat, mode)
  {
    StoppedTakeIsComplete(policy, stream);
    CompleteIsBalanced(table, StopTake(Record(policy, stream)));
  }
}
