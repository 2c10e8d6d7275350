/** Whose turn it is to use the device (internal/hidlinux/hidraw_passive.go).

    Commands and the listener share one turn. A command announces itself before it waits, so that
    the listener keeps off; whoever has to wait does so on a wake channel, which every change of
    the shared fields closes and replaces. The step relation interleaves the processes; the critical
    sections and the waiting loop are methods of the class, each tied to its steps. */
module TurnArbiter {

  /** The fields guarded by the mutex. Closing a closed channel panics. */
  datatype Gate = Gate(busy: bool, pending: bool, wake: nat, closed: set<nat>, panicked: bool) {
    /** Closes the wake channel and makes a new one. */
    function Renewed(): Gate {
      this.(closed := closed + {wake}, wake := wake + 1, panicked := panicked || wake in closed)
    }

    predicate Blocks(command: bool) {
      busy || (!command && pending)
    }
  }

  const FREE := Gate(false, false, 0, {}, false)

  // ------------------------------------------------------------------ processes

  /** Where a command or a listener turn stands. A command is active from its announcement until
      it withdraws, which it also does after a cancelled wait. */
  datatype Phase =
    | Idle
    | Trying(command: bool)
    | Parked(command: bool, channel: nat)
    | Holding(command: bool)
    | Leaving // a command that no longer holds or waits for the turn but has not withdrawn yet
  {
    predicate Waiting() {
      Trying? || Parked?
    }

    predicate Active() {
      Leaving? || ((Waiting() || Holding?) && command)
    }
  }

  datatype State = State(gate: Gate, processes: seq<Phase>)

  datatype Event =
    | Listen(p: nat)
    | Begin(p: nat)
    | Check(p: nat)
    | Wake(p: nat)
    | Cancel(p: nat)
    | Release(p: nat)
    | Finish(p: nat)

  predicate Enabled(s: State, e: Event) {
    && e.p < |s.processes|
    && var phase := s.processes[e.p];
       match e
       case Listen(_) => phase.Idle?
       case Begin(_) => phase.Idle?
       case Check(_) => phase.Trying?
       case Wake(_) => phase.Parked? && phase.channel in s.gate.closed
       case Cancel(_) => phase.Parked?
       case Release(_) => phase.Holding?
       case Finish(_) => phase.Leaving?
  }

  predicate Granted(s: State, e: Event)
    requires Enabled(s, e)
  {
    e.Check? && !s.gate.Blocks(s.processes[e.p].command)
  }

  function Step(s: State, e: Event): State
    requires Enabled(s, e)
  {
    var phase := s.processes[e.p];
    match e
    case Listen(p) => s.(processes := s.processes[p := Trying(false)])
    case Begin(p) => State(s.gate.(pending := true).Renewed(), s.processes[p := Trying(true)])
    case Check(p) =>
      if Granted(s, e) then State(s.gate.(busy := true), s.processes[p := Holding(phase.command)])
      else s.(processes := s.processes[p := Parked(phase.command, s.gate.wake)])
    case Wake(p) => s.(processes := s.processes[p := Trying(phase.command)])
    case Cancel(p) => s.(processes := s.processes[p := if phase.command then Leaving else Idle])
    case Release(p) =>
      State(s.gate.(busy := false).Renewed(), s.processes[p := if phase.command then Leaving else Idle])
    case Finish(p) => State(s.gate.(pending := false).Renewed(), s.processes[p := Idle])
  }

  predicate Possible(s: State, events: seq<Event>)
    decreases |events|
  {
    events == [] || (Enabled(s, events[0]) && Possible(Step(s, events[0]), events[1..]))
  }

  function Run(s: State, events: seq<Event>): State
    requires Possible(s, events)
    decreases |events|
  {
    if events == [] then s else Run(Step(s, events[0]), events[1..])
  }

  function Initial(processes: nat): State {
    State(FREE, seq(processes, _ => Idle))
  }

  // ------------------------------------------------------------------ safety

  predicate Holds(s: State, p: int) {
    0 <= p < |s.processes| && s.processes[p].Holding?
  }

  /** At most one process has the turn, and the gate is busy exactly when one has. */
  ghost predicate Exclusive(s: State) {
    && (forall p, q | Holds(s, p) && Holds(s, q) :: p == q)
    && (s.gate.busy <==> exists p :: Holds(s, p))
  }

  /** Whoever sleeps on a channel that is still open is still blocked. */
  ghost predicate NoLostWakeUp(s: State) {
    forall p | 0 <= p < |s.processes| && s.processes[p].Parked? && s.processes[p].channel !in s.gate.closed ::
      s.gate.Blocks(s.processes[p].command)
  }

  predicate IsActive(s: State, p: int) {
    0 <= p < |s.processes| && s.processes[p].Active()
  }

  ghost predicate Inv(s: State) {
    && Exclusive(s) && NoLostWakeUp(s)
    && !s.gate.panicked
    && (forall channel | channel in s.gate.closed :: channel < s.gate.wake)
    && (forall p | 0 <= p < |s.processes| && s.processes[p].Parked? ::
          s.processes[p].channel == s.gate.wake || s.processes[p].channel in s.gate.closed)
    && (s.gate.pending ==> exists p :: IsActive(s, p))
  }

  lemma StepKeepsInv(s: State, e: Event)
    requires Inv(s) && Enabled(s, e)
    ensures Inv(Step(s, e))
  {
    var next := Step(s, e);
    assert forall p | p != e.p :: Holds(next, p) == Holds(s, p) && IsActive(next, p) == IsActive(s, p);
    assert Holds(next, e.p) == next.processes[e.p].Holding?;
    assert IsActive(next, e.p) == next.processes[e.p].Active();
    assert Holds(s, e.p) == s.processes[e.p].Holding?;
  }

  /** In every interleaving of any number of commands and listener turns. */
  lemma {:induction false} RunKeepsInv(s: State, events: seq<Event>)
    requires Inv(s) && Possible(s, events)
    ensures Inv(Run(s, events))
    decreases |events|
  {
    if events != [] {
      StepKeepsInv(s, events[0]);
      RunKeepsInv(Step(s, events[0]), events[1..]);
    }
  }

  lemma EveryRunIsSafe(processes: nat, events: seq<Event>)
    requires Possible(Initial(processes), events)
    ensures var s := Run(Initial(processes), events); Exclusive(s) && NoLostWakeUp(s) && !s.gate.panicked
  {
    assert Inv(Initial(processes));
    RunKeepsInv(Initial(processes), events);
  }

  /** The events by which the program gets on without new requests and without cancellations. */
  predicate Progress(e: Event) {
    e.Check? || e.Wake? || e.Release? || e.Finish?
  }

  /** As long as somebody waits, some process can go on. */
  lemma NobodyIsStuck(s: State, p: nat)
    requires Inv(s) && p < |s.processes| && s.processes[p].Waiting()
    ensures exists e :: Progress(e) && Enabled(s, e)
  {
    if s.processes[p].Trying? {
      assert Enabled(s, Check(p));
    } else if s.processes[p].channel in s.gate.closed {
      assert Enabled(s, Wake(p));
    } else if s.gate.busy {
      var q :| Holds(s, q);
      assert Enabled(s, Release(q));
    } else {
      var q :| IsActive(s, q);
      assert !Holds(s, q);
      if s.processes[q].Trying? {
        assert Enabled(s, Check(q));
      } else if s.processes[q].Parked? {
        assert Enabled(s, Wake(q));
      } else if s.processes[q].Leaving? {
        assert Enabled(s, Finish(q));
      }
    }
  }

  // ------------------------------------------------------------------ priority of commands

  /** A command begins only while no other command is active. */
  ghost predicate OneCommand(s: State, events: seq<Event>)
    requires Possible(s, events)
    decreases |events|
  {
    events != [] ==>
      && (events[0].Begin? ==> forall p :: !IsActive(s, p))
      && OneCommand(Step(s, events[0]), events[1..])
  }

  /** The flag tells the truth: it is set exactly while a command is active, and one is at most. */
  ghost predicate Announced(s: State) {
    && (forall p, q | IsActive(s, p) && IsActive(s, q) :: p == q)
    && (s.gate.pending <==> exists p :: IsActive(s, p))
  }

  lemma {:induction false} OneCommandIsAnnounced(s: State, events: seq<Event>)
    requires Inv(s) && Announced(s) && Possible(s, events) && OneCommand(s, events)
    ensures Announced(Run(s, events)) && Inv(Run(s, events))
    decreases |events|
  {
    if events != [] {
      var e, next := events[0], Step(s, events[0]);
      StepKeepsInv(s, e);
      assert forall p | p != e.p :: IsActive(next, p) == IsActive(s, p);
      assert IsActive(next, e.p) == next.processes[e.p].Active();
      assert IsActive(s, e.p) == s.processes[e.p].Active();
      OneCommandIsAnnounced(next, events[1..]);
    }
  }

  /** With one outstanding command, no listener turn starts between its beginning and its end. */
  lemma ListenerKeepsOff(processes: nat, events: seq<Event>, e: Event)
    requires Possible(Initial(processes), events) && OneCommand(Initial(processes), events)
    requires var s := Run(Initial(processes), events);
             Enabled(s, e) && Granted(s, e) && !s.processes[e.p].command
    ensures forall p :: !IsActive(Run(Initial(processes), events), p)
  {
    assert Inv(Initial(processes)) && Announced(Initial(processes));
    OneCommandIsAnnounced(Initial(processes), events);
  }

  /** Whether the last command to begin or finish began. */
  function LastBegan(events: seq<Event>, began: bool): bool {
    if events == [] then began
    else LastBegan(events[1..], if events[0].Begin? then true else if events[0].Finish? then false else began)
  }

  /** With several commands the flag remembers only the last of them to begin or to finish. A free
      turn goes to the listener exactly when that one finished, whoever else is still active. */
  lemma {:induction false} FlagIsLastCommand(s: State, events: seq<Event>)
    requires Possible(s, events)
    ensures Run(s, events).gate.pending == LastBegan(events, s.gate.pending)
    decreases |events|
  {
    if events != [] {
      FlagIsLastCommand(Step(s, events[0]), events[1..]);
    }
  }

  /** So this is exactly when a listener that asks gets the turn. */
  lemma ListenerIsGranted(processes: nat, events: seq<Event>, p: nat)
    requires Possible(Initial(processes), events)
    requires var s := Run(Initial(processes), events); p < processes == |s.processes| && s.processes[p] == Trying(false)
    ensures var s := Run(Initial(processes), events);
            Granted(s, Check(p)) <==> !LastBegan(events, false) && forall q :: !Holds(s, q)
  {
    assert Inv(Initial(processes));
    RunKeepsInv(Initial(processes), events);
    FlagIsLastCommand(Initial(processes), events);
  }

  /** Two commands overlap; the first one finishes and the listener overtakes the second. */
  lemma ListenerOvertakes()
    ensures exists events, e ::
              && Possible(Initial(3), events)
              && var s := Run(Initial(3), events);
                 Enabled(s, e) && Granted(s, e) && !s.processes[e.p].command && IsActive(s, 1)
  {
    var events := [Begin(0), Begin(1), Check(0), Check(1), Release(0), Finish(0), Listen(2)];
    var states := OvertakingStates(events);
    hide Enabled, Granted, Step, Possible, Run;
    RunsThrough(states, events);
    assert Run(Initial(3), events) == states[7];
  }

  lemma OvertakingStates(events: seq<Event>) returns (states: seq<State>)
    requires events == [Begin(0), Begin(1), Check(0), Check(1), Release(0), Finish(0), Listen(2)]
    ensures |states| == 8 && states[0] == Initial(3)
    ensures forall i | 0 <= i < 7 :: Enabled(states[i], events[i]) && states[i + 1] == Step(states[i], events[i])
    ensures var s := states[7];
            Enabled(s, Check(2)) && Granted(s, Check(2)) && !s.processes[2].command && IsActive(s, 1)
  {
    assert Initial(3).processes == [Idle, Idle, Idle];
    var s1 := Step(Initial(3), Begin(0));
    var s2 := Step(s1, Begin(1));
    var s3 := Step(s2, Check(0));
    var s4 := Step(s3, Check(1));
    var s5 := Step(s4, Release(0));
    var s6 := Step(s5, Finish(0));
    var s7 := Step(s6, Listen(2));
    assert s7.processes == [Idle, Parked(true, 2), Trying(false)];
    states := [Initial(3), s1, s2, s3, s4, s5, s6, s7];
  }

  /** States each of which is the step after the one before are those of a run. */
  lemma {:induction false} RunsThrough(states: seq<State>, events: seq<Event>)
    requires |states| == |events| + 1
    requires forall i | 0 <= i < |events| ::
               Enabled(states[i], events[i]) && states[i + 1] == Step(states[i], events[i])
    ensures Possible(states[0], events) && Run(states[0], events) == states[|events|]
    decreases |events|
  {
    hide Enabled, Step;
    if events != [] {
      RunsThrough(states[1..], events[1..]);
    }
  }

  // ------------------------------------------------------------------ the program

  lemma {:induction false} OneMoreEvent(s: State, events: seq<Event>, e: Event)
    requires Possible(s, events) && Enabled(Run(s, events), e)
    ensures Possible(s, events + [e]) && Run(s, events + [e]) == Step(Run(s, events), e)
    decreases |events|
  {
    if events == [] {
      assert [] + [e] == [e] && [e][1..] == [];
    } else {
      OneMoreEvent(Step(s, events[0]), events[1..], e);
      assert (events + [e])[1..] == events[1..] + [e];
    }
  }

  lemma OthersStay(s: State, e: Event)
    requires Enabled(s, e)
    ensures var next := Step(s, e);
            && |next.processes| == |s.processes| && s.gate.closed <= next.gate.closed
            && forall p | 0 <= p < |s.processes| && p != e.p :: next.processes[p] == s.processes[p]
  {
  }

  datatype Turn = Taken | Cancelled | StillWaiting // the environment was observed for no more rounds

  /** The shared fields and where each process stands. `history` are the steps so far. */
  class Turns {
    var gate: Gate
    var processes: seq<Phase>
    ghost var history: seq<Event>

    constructor (processes: nat)
      ensures Valid() && Now() == Initial(processes) && history == []
    {
      gate, this.processes, history := FREE, seq(processes, _ => Idle), [];
    }

    function Now(): State
      reads this
    {
      State(gate, processes)
    }

    ghost predicate Valid()
      reads this
    {
      && Possible(Initial(|processes|), history) && Now() == Run(Initial(|processes|), history)
      && Inv(Now())
    }

    /** All that has happened is this step. */
    twostate predicate Did(e: Event)
      reads this
    {
      && Valid() && history == old(history) + [e]
      && old(Enabled(Now(), e)) && Now() == Step(old(Now()), e)
    }

    /** Whoever waited before can go on now, and whoever waits from now on waits on an open channel. */
    twostate predicate WokeEverybody()
      reads this
    {
      && (forall p | 0 <= p < |processes| && processes[p].Parked? && old(p < |processes| && processes[p].Parked?) ::
            processes[p].channel in gate.closed)
      && old(gate.wake) in gate.closed && gate.wake !in gate.closed
      && !gate.panicked
    }

    ghost method Record(e: Event, before: State)
      requires Possible(Initial(|processes|), history) && before == Run(Initial(|processes|), history)
      requires Inv(before) && Enabled(before, e) && Now() == Step(before, e)
      modifies this`history
      ensures Valid() && history == old(history) + [e]
    {
      StepKeepsInv(before, e);
      OneMoreEvent(Initial(|processes|), history, e);
      history := history + [e];
    }

    method Renew()
      modifies this`gate
      ensures gate == old(gate).Renewed()
    {
      if gate.wake in gate.closed {
        gate := gate.(panicked := true);
      }
      gate := gate.(closed := gate.closed + {gate.wake}, wake := gate.wake + 1);
    }

    method Listen(p: nat)
      requires Valid() && Enabled(Now(), Event.Listen(p))
      modifies this
      ensures Did(Event.Listen(p))
    {
      ghost var before := Now();
      processes := processes[p := Trying(false)];
      Record(Event.Listen(p), before);
    }

    /** One look at the fields: either the turn, or the channel to wait on. */
    method TryAcquire(p: nat, command: bool) returns (granted: bool)
      requires Valid() && p < |processes| && processes[p] == Trying(command)
      modifies this
      ensures Did(Check(p))
      ensures granted <==> old(Granted(Now(), Check(p)))
      ensures granted ==> forall q :: Holds(Now(), q) <==> q == p
      ensures !granted ==> processes[p] == Parked(command, gate.wake)
    {
      hide Possible, Run;
      ghost var before := Now();
      granted := !gate.busy && (command || !gate.pending);
      if granted {
        gate, processes := gate.(busy := true), processes[p := Holding(command)];
        assert Holds(Now(), p);
      } else {
        processes := processes[p := Parked(command, gate.wake)];
      }
      Record(Check(p), before);
    }

    method Release(p: nat)
      requires Valid() && Enabled(Now(), Event.Release(p))
      modifies this
      ensures Did(Event.Release(p)) && WokeEverybody()
    {
      hide Possible, Run;
      ghost var before := Now();
      gate := gate.(busy := false);
      Renew();
      processes := processes[p := if processes[p].command then Leaving else Idle];
      Record(Event.Release(p), before);
    }

    method Announce(p: nat)
      requires Valid() && Enabled(Now(), Begin(p))
      modifies this
      ensures Did(Begin(p)) && WokeEverybody()
    {
      hide Possible, Run;
      ghost var before := Now();
      gate := gate.(pending := true);
      Renew();
      processes := processes[p := Trying(true)];
      Record(Begin(p), before);
    }

    method Withdraw(p: nat)
      requires Valid() && Enabled(Now(), Finish(p))
      modifies this
      ensures Did(Finish(p)) && WokeEverybody()
    {
      hide Possible, Run;
      ghost var before := Now();
      gate := gate.(pending := false);
      Renew();
      processes := processes[p := Idle];
      Record(Finish(p), before);
    }

    /** The end of a wait. */
    method Unpark(p: nat, cancelled: bool)
      requires Valid() && Enabled(Now(), if cancelled then Cancel(p) else Wake(p))
      modifies this
      ensures Did(if cancelled then Cancel(p) else Wake(p))
    {
      hide Possible, Run;
      ghost var before := Now();
      var command := processes[p].command;
      processes := processes[p := if !cancelled then Trying(command) else if command then Leaving else Idle];
      Record(if cancelled then Cancel(p) else Wake(p), before);
    }

    /** Any step of any process. */
    method Act(e: Event)
      requires Valid() && Enabled(Now(), e)
      modifies this
      ensures Did(e)
    {
      hide Possible, Run, Inv;
      match e
      case Listen(p) => Listen(p);
      case Begin(p) => Announce(p);
      case Check(p) => var _ := TryAcquire(p, processes[p].command);
      case Wake(p) => Unpark(p, false);
      case Cancel(p) => Unpark(p, true);
      case Release(p) => Release(p);
      case Finish(p) => Withdraw(p);
    }

    /** Whatever the other processes do meanwhile. */
    method Others(p: nat)
      requires Valid() && p < |processes|
      modifies this
      ensures Valid() && |processes| == old(|processes|) && processes[p] == old(processes[p])
      ensures old(gate.closed) <= gate.closed && old(history) <= history
    {
      hide Possible, Run, Inv;
      var rounds: int := *;
      for round := 0 to if rounds < 0 then 0 else rounds
        invariant Valid() && |processes| == old(|processes|) && processes[p] == old(processes[p])
        invariant old(gate.closed) <= gate.closed && old(history) <= history
      {
        var e: Event := *;
        if Enabled(Now(), e) && e.p != p {
          ghost var before := Now();
          Act(e);
          OthersStay(before, e);
        }
      }
    }

    /** Waits for the turn until it gets it or is cancelled, for a number of rounds. */
    method AcquireIO(p: nat, command: bool, rounds: nat) returns (turn: Turn)
      requires Valid() && p < |processes| && processes[p] == Trying(command)
      modifies this
      ensures Valid() && |processes| == old(|processes|) && old(history) <= history
      ensures turn == Taken ==> processes[p] == Holding(command) && forall q :: Holds(Now(), q) <==> q == p
      ensures turn == Taken ==> history[|history| - 1] == Check(p)
      ensures turn == Cancelled ==> processes[p] == if command then Leaving else Idle
      // It waits on an open channel only while the turn is denied to it.
      ensures turn == StillWaiting ==>
                || processes[p] == Trying(command)
                || (processes[p].Parked? && processes[p].command == command
                    && (processes[p].channel !in gate.closed ==> gate.Blocks(command)))
    {
      hide Possible, Run;
      for round := 0 to rounds
        invariant Valid() && |processes| == old(|processes|) && old(history) <= history
        invariant processes[p] == Trying(command)
      {
        Others(p);
        var granted := TryAcquire(p, command);
        if granted {
          return Taken;
        }
        Others(p);
        if * {
          Unpark(p, true);
          return Cancelled;
        }
        if processes[p].channel !in gate.closed {
          return StillWaiting;
        }
        Unpark(p, false);
      }
      return StillWaiting;
    }

    /** A command announces itself before it waits, and withdraws when the wait is cancelled. */
    method BeginCommand(p: nat, rounds: nat) returns (turn: Turn)
      requires Valid() && p < |processes| && processes[p].Idle?
      modifies this
      ensures Valid() && |processes| == old(|processes|)
      ensures turn == Taken ==> processes[p] == Holding(true) && forall q :: Holds(Now(), q) <==> q == p
      ensures turn == Cancelled ==> processes[p].Idle?
      ensures old(history) + [Begin(p)] <= history
      ensures turn == Taken ==> history[|history| - 1] == Check(p)
      ensures turn == Cancelled ==> history[|history| - 1] == Finish(p)
    {
      hide Possible, Run, Inv;
      Announce(p);
      turn := AcquireIO(p, true, rounds);
      if turn == Cancelled {
        Others(p);
        Withdraw(p);
      }
    }

    /** The end of a command that had the turn. */
    method EndCommand(p: nat)
      requires Valid() && p < |processes| && processes[p] == Holding(true)
      modifies this
      ensures Valid() && |processes| == old(|processes|) && processes[p].Idle?
      ensures old(history) + [Event.Release(p)] <= history && history[|history| - 1] == Finish(p)
    {
      hide Possible, Run, Inv;
      Release(p);
      Others(p);
      Withdraw(p);
    }
  }
}
