/** Which local takes the device accepts (internal/macros/x6local.go, internal/macros/x6admission.go,
    frontend/src/macros/device-admission.ts, internal/desktop/macro_assignment.go).

    Admission is defined once, without a loop. The gate of the host and the gate of the user
    interface are two programs, and each is proved to decide exactly that. */
module MacroAdmission {
  import opened Bytes
  import opened MacroBlocks
  import opened MacroCodec
  import Text

  const KEYBOARD := "keyboard"
  const DOWN := "down"
  const UP := "up"

  /** A stored event. Its action is text, as in the file it comes from. */
  datatype Event = Event(kind: string, action: string, delay: int, key: string)

  /** The codes of the physical keys. */
  type KeyTable = map<string, byte>

  /** No key of the table is blank or named like a mouse button. */
  predicate ProperTable(table: KeyTable) {
    forall key | key in table :: !Text.Blank(key) && key !in BUTTONS
  }

  predicate ValidEvent(e: Event) {
    && (if e.kind == KEYBOARD then !Text.Blank(e.key) else e.kind in BUTTONS && e.key == "")
    && (e.action == DOWN || e.action == UP)
    && e.delay >= 0
  }

  predicate Mappable(table: KeyTable, e: Event) {
    ValidEvent(e) && (e.kind == KEYBOARD ==> e.key in table)
  }

  /** The code of a mappable event. */
  function Code(table: KeyTable, e: Event): byte {
    if e.kind == KEYBOARD && e.key in table then table[e.key]
    else if e.kind in BUTTONS then ButtonCode(e.kind)
    else 0
  }

  function ActionOf(e: Event): Action {
    if e.action == DOWN then Down else Up
  }

  predicate AllMappable(table: KeyTable, events: seq<Event>) {
    forall i | 0 <= i < |events| :: Mappable(table, events[i])
  }

  function Mapped(table: KeyTable, events: seq<Event>): (mapped: seq<TimedEvent>)
    ensures |mapped| == |events|
  {
    seq(|events|, i requires 0 <= i < |events| =>
      TimedEvent(Code(table, events[i]), ActionOf(events[i]), events[i].delay))
  }

  /** What can be mapped, and to what: keys of the table to its codes, the five buttons to five codes of
      their own; the action and the delay are kept. */
  lemma MappedIs(table: KeyTable, events: seq<Event>, i: nat)
    requires i < |events|
    ensures Mappable(table, events[i]) <==>
              && (if events[i].kind == "keyboard" then !Text.Blank(events[i].key) && events[i].key in table
                  else
                    && events[i].key == ""
                    && events[i].kind in {"mouse_left", "mouse_right", "mouse_middle", "mouse_back", "mouse_forward"})
              && events[i].action in {"down", "up"} && events[i].delay >= 0
    ensures Mappable(table, events[i]) ==>
              var mapped := Mapped(table, events)[i];
              && mapped.code
                   == (if events[i].kind == "keyboard" then table[events[i].key]
                       else if events[i].kind == "mouse_left" then 0xf1
                       else if events[i].kind == "mouse_right" then 0xf2
                       else if events[i].kind == "mouse_middle" then 0xf3
                       else if events[i].kind == "mouse_back" then 0xf4 else 0xf5)
              && mapped.action == (if events[i].action == "down" then Down else Up)
              && mapped.delay == events[i].delay
  {
    KeyboardIsNoButton();
    var kind := events[i].kind;
    SequencesAre(Sequence([kind], 1, 0));
    assert [kind][0] in [kind];
    if kind in BUTTONS {
      ButtonsAre(kind, []);
    }
  }

  predicate SameInput(a: Event, b: Event) {
    a.kind == b.kind && a.key == b.key
  }

  /** The press that holds a code down after the first `n` events: the last event of that code,
      unless it is a release. */
  function Holder(table: KeyTable, events: seq<Event>, n: nat, code: byte): (holder: int)
    requires n <= |events|
    ensures -1 <= holder < n
  {
    if n == 0 then -1
    else if Code(table, events[n - 1]) != code then Holder(table, events, n - 1, code)
    else if ActionOf(events[n - 1]) == Down then n - 1
    else -1
  }

  /** Only a free code is pressed, only the input that holds a code releases it, and in the end
      every code is free. */
  ghost predicate Balanced(table: KeyTable, events: seq<Event>) {
    && (forall i | 0 <= i < |events| :: Fits(table, events, i))
    && (forall code: byte :: Free(table, events, code))
  }

  predicate Free(table: KeyTable, events: seq<Event>, code: byte) {
    Holder(table, events, |events|, code) < 0
  }

  predicate Fits(table: KeyTable, events: seq<Event>, i: nat)
    requires i < |events|
  {
    var holder := Holder(table, events, i, Code(table, events[i]));
    if ActionOf(events[i]) == Down then holder < 0
    else holder >= 0 && SameInput(events[holder], events[i])
  }

  lemma {:induction false} HolderIs(table: KeyTable, events: seq<Event>, n: nat, code: byte, j: nat)
    requires j < n <= |events|
    ensures Holder(table, events, n, code) == j <==>
              && Code(table, events[j]) == code && ActionOf(events[j]) == Down
              && forall k | j < k < n :: Code(table, events[k]) != code
  {
    hide Code;
    if j < n - 1 {
      HolderIs(table, events, n - 1, code, j);
    }
  }

  /** The next event of a code, or the end. */
  lemma NextOf(table: KeyTable, events: seq<Event>, j: nat, code: byte) returns (i: nat)
    requires j < |events|
    ensures j < i <= |events| && forall k | j < k < i :: Code(table, events[k]) != code
    ensures i < |events| ==> Code(table, events[i]) == code
  {
    hide Code;
    i := j + 1;
    while i < |events| && Code(table, events[i]) != code
      invariant j < i <= |events| && forall k | j < k < i :: Code(table, events[k]) != code
    {
      i := i + 1;
    }
  }

  /** Balance in pairs: every release comes after a press of the same input and every press before a
      release of the same input, with nothing of their code in between. */
  lemma BalancedIff(table: KeyTable, events: seq<Event>)
    requires AllMappable(table, events)
    ensures Balanced(table, events) <==>
              && (forall i | 0 <= i < |events| && events[i].action == "up" ::
                    exists j :: 0 <= j < i && events[j] == events[i].(action := "down", delay := events[j].delay)
                      && forall k | j < k < i :: Code(table, events[k]) != Code(table, events[i]))
              && (forall j | 0 <= j < |events| && events[j].action == "down" ::
                    exists i :: j < i < |events| && events[i] == events[j].(action := "up", delay := events[i].delay)
                      && forall k | j < k < i :: Code(table, events[k]) != Code(table, events[j]))
  {
    hide Balanced, Holder;
    if Balanced(table, events) {
      forall i | 0 <= i < |events| && events[i].action == "up"
        ensures exists j :: 0 <= j < i && events[j] == events[i].(action := "down", delay := events[j].delay)
                  && forall k | j < k < i :: Code(table, events[k]) != Code(table, events[i])
      {
        var j := PressBefore(table, events, i);
      }
      forall j | 0 <= j < |events| && events[j].action == "down"
        ensures exists i :: j < i < |events| && events[i] == events[j].(action := "up", delay := events[i].delay)
                  && forall k | j < k < i :: Code(table, events[k]) != Code(table, events[j])
      {
        var i := ReleaseAfter(table, events, j);
      }
    } else {
      Unpaired(table, events);
    }
  }

  lemma PressBefore(table: KeyTable, events: seq<Event>, i: nat) returns (j: nat)
    requires AllMappable(table, events) && Balanced(table, events)
    requires i < |events| && events[i].action == "up"
    ensures j < i && events[j] == events[i].(action := "down", delay := events[j].delay)
    ensures forall k | j < k < i :: Code(table, events[k]) != Code(table, events[i])
  {
    hide Holder, Code;
    assert Fits(table, events, i);
    j := Holder(table, events, i, Code(table, events[i]));
    HolderIs(table, events, i, Code(table, events[i]), j);
    assert Mappable(table, events[j]);
  }

  lemma ReleaseAfter(table: KeyTable, events: seq<Event>, j: nat) returns (i: nat)
    requires AllMappable(table, events) && Balanced(table, events)
    requires j < |events| && events[j].action == "down"
    ensures j < i < |events| && events[i] == events[j].(action := "up", delay := events[i].delay)
    ensures forall k | j < k < i :: Code(table, events[k]) != Code(table, events[j])
  {
    hide Holder, Code;
    var code := Code(table, events[j]);
    i := NextOf(table, events, j, code);
    HolderIs(table, events, i, code, j);
    assert Free(table, events, code);
    assert i < |events| ==> Fits(table, events, i) && Mappable(table, events[i]);
  }

  /** A press that still holds its code at a press of that code, or in the end, has no release. */
  lemma HolderIsUnpaired(table: KeyTable, events: seq<Event>, n: nat, code: byte, j: nat)
    requires AllMappable(table, events) && j < n <= |events| && Holder(table, events, n, code) == j
    requires n == |events| || (Code(table, events[n]) == code && events[n].action == "down")
    ensures events[j].action == "down" && Code(table, events[j]) == code
    ensures forall i | j < i < |events| && events[i] == events[j].(action := "up", delay := events[i].delay) ::
              exists k :: j < k < i && Code(table, events[k]) == code
  {
    hide Holder, Code;
    HolderIs(table, events, n, code, j);
    assert Mappable(table, events[j]);
    forall i | j < i < |events| && events[i] == events[j].(action := "up", delay := events[i].delay)
      ensures exists k :: j < k < i && Code(table, events[k]) == code
    {
      SameInputSameCode(table, events[i], events[j]);
    }
  }

  lemma ReleaseIsUnpaired(table: KeyTable, events: seq<Event>, i: nat)
    requires i < |events| && events[i].action == "up" && !Fits(table, events, i)
    ensures forall j | 0 <= j < i && events[j] == events[i].(action := "down", delay := events[j].delay) ::
              exists k :: j < k < i && Code(table, events[k]) == Code(table, events[i])
  {
    hide Holder, Code;
    forall j | 0 <= j < i && events[j] == events[i].(action := "down", delay := events[j].delay)
      ensures exists k :: j < k < i && Code(table, events[k]) == Code(table, events[i])
    {
      HolderIs(table, events, i, Code(table, events[i]), j);
      SameInputSameCode(table, events[j], events[i]);
    }
  }

  /** A take that is not balanced has an event without its partner. */
  lemma Unpaired(table: KeyTable, events: seq<Event>)
    requires AllMappable(table, events) && !Balanced(table, events)
    ensures || (exists i :: 0 <= i < |events| && events[i].action == "up"
                  && forall j | 0 <= j < i && events[j] == events[i].(action := "down", delay := events[j].delay) ::
                       exists k :: j < k < i && Code(table, events[k]) == Code(table, events[i]))
            || (exists j :: 0 <= j < |events| && events[j].action == "down"
                  && forall i | j < i < |events| && events[i] == events[j].(action := "up", delay := events[i].delay) ::
                       exists k :: j < k < i && Code(table, events[k]) == Code(table, events[j]))
  {
    if forall i | 0 <= i < |events| :: Fits(table, events, i) {
      var code :| !Free(table, events, code);
      HolderIsUnpaired(table, events, |events|, code, Holder(table, events, |events|, code));
    } else {
      var i :| 0 <= i < |events| && !Fits(table, events, i);
      assert Mappable(table, events[i]);
      if events[i].action == "up" {
        ReleaseIsUnpaired(table, events, i);
      } else {
        var code := Code(table, events[i]);
        hide Code;
        HolderIsUnpaired(table, events, i, code, Holder(table, events, i, code));
      }
    }
  }

  lemma SameInputSameCode(table: KeyTable, a: Event, b: Event)
    requires SameInput(a, b)
    ensures Code(table, a) == Code(table, b)
  {
  }

  /** The takes that may be sent to the device. */
  ghost predicate Admissible(table: KeyTable, events: seq<Event>, repeat: int, mode: byte) {
    && AllMappable(table, events)
    && Balanced(table, events)
    && Encodable(Mapped(table, events), repeat, mode)
  }

  ghost function AdmittedBlock(table: KeyTable, events: seq<Event>, repeat: int, mode: byte): seq<byte>
    requires Admissible(table, events, repeat, mode)
  {
    TimedBlock(Mapped(table, events), repeat, mode)
  }

  // ------------------------------------------------------------------ the gate of the host

  method Validate(events: seq<Event>) returns (ok: bool)
    ensures ok == forall i | 0 <= i < |events| :: ValidEvent(events[i])
  {
    for i := 0 to |events|
      invariant forall j | 0 <= j < i :: ValidEvent(events[j])
    {
      var e := events[i];
      if e.kind in BUTTONS {
        if e.key != "" {
          return false;
        }
      } else if e.kind == KEYBOARD {
        if Text.Blank(e.key) {
          return false;
        }
      } else {
        return false;
      }
      if (e.action != DOWN && e.action != UP) || e.delay < 0 {
        return false;
      }
    }
    return true;
  }

  lemma KeyboardIsNoButton()
    ensures KEYBOARD !in BUTTONS
  {
    forall i | 0 <= i < |BUTTONS| ensures BUTTONS[i] != KEYBOARD {
      assert BUTTONS[i][0] == 'm';
    }
  }

  method MapLocalEvents(table: KeyTable, events: seq<Event>) returns (mapped: Option<seq<TimedEvent>>)
    ensures mapped.Some? <==> AllMappable(table, events)
    ensures mapped.Some? ==> mapped.value == Mapped(table, events)
  {
    hide ButtonCode;
    KeyboardIsNoButton();
    var ok := Validate(events);
    if !ok {
      return None;
    }
    var result: seq<TimedEvent> := [];
    for i := 0 to |events|
      invariant forall j | 0 <= j < i :: Mappable(table, events[j])
      invariant |result| == i
      invariant forall j | 0 <= j < i ::
                  result[j] == TimedEvent(Code(table, events[j]), ActionOf(events[j]), events[j].delay)
    {
      var e, code := events[i], 0;
      if e.kind == KEYBOARD {
        if e.key !in table {
          return None;
        }
        code := table[e.key];
      } else {
        code := CodeOf(e.kind);
      }
      result := result + [TimedEvent(code, ActionOf(e), e.delay)];
    }
    return Some(result);
  }

  function Identity(e: Event): string {
    e.kind + ":" + e.key
  }

  lemma IdentityIsInput(a: Event, b: Event)
    requires ValidEvent(a) && ValidEvent(b)
    ensures Identity(a) == Identity(b) <==> SameInput(a, b)
  {
    KindHasNoColon(a);
    KindHasNoColon(b);
    Text.CutAt(a.kind, ':', a.key);
    Text.CutAt(b.kind, ':', b.key);
    assert Identity(a) == a.kind + [':'] + a.key && Identity(b) == b.kind + [':'] + b.key;
  }

  lemma KindHasNoColon(e: Event)
    requires ValidEvent(e)
    ensures ':' !in e.kind
  {
    if e.kind != KEYBOARD {
      var i :| 0 <= i < |BUTTONS| && BUTTONS[i] == e.kind;
      ButtonHasNoColon(i);
    }
  }

  lemma ButtonHasNoColon(i: nat)
    requires i < |BUTTONS|
    ensures ':' !in BUTTONS[i]
  {
  }

  /** The map of held codes says who holds what. */
  ghost predicate HeldIs(
    held: map<byte, string>, table: KeyTable, events: seq<Event>, n: nat, identity: Event -> string)
    requires n <= |events|
  {
    forall code: byte ::
      var holder := Holder(table, events, n, code);
      && (code in held <==> holder >= 0)
      && (code in held ==> held[code] == identity(events[holder]))
  }

  /** The host's gate as written. */
  method AdmitLocalBlock(table: KeyTable, events: seq<Event>, repeat: int, mode: byte)
    returns (block: Option<seq<byte>>)
    ensures block.Some? <==> Admissible(table, events, repeat, mode)
    ensures block.Some? ==> block.value == AdmittedBlock(table, events, repeat, mode)
  {
    var mapped := MapLocalEvents(table, events);
    if mapped.None? {
      return None;
    }
    var balanced := HostBalance(table, events);
    if !balanced {
      return None;
    }
    block := EncodeTimedBlock(mapped.value, repeat, mode);
  }

  /** Whether the map of held codes lets an event pass. */
  predicate HeldAllows(held: map<byte, string>, code: byte, action: Action, identity: string) {
    if action == Down then code !in held else code in held && held[code] == identity
  }

  function HeldAfter(held: map<byte, string>, code: byte, action: Action, identity: string): map<byte, string> {
    if action == Down then held[code := identity] else held - {code}
  }

  /** An event has the identity of an earlier one exactly when it is the same input. */
  ghost predicate TellsApart(identity: Event -> string, events: seq<Event>, i: nat)
    requires i < |events|
  {
    forall j | 0 <= j < i :: identity(events[j]) == identity(events[i]) <==> SameInput(events[j], events[i])
  }

  lemma HostTellsApart(table: KeyTable, events: seq<Event>, i: nat)
    requires i < |events| && forall j | 0 <= j <= i :: Mappable(table, events[j])
    ensures TellsApart(Identity, events, i)
  {
    forall j | 0 <= j < i
      ensures Identity(events[j]) == Identity(events[i]) <==> SameInput(events[j], events[i])
    {
      IdentityIsInput(events[j], events[i]);
    }
  }

  /** The map decides whether the next event fits, if identities tell the inputs of a code apart. */
  lemma HeldDecides(held: map<byte, string>, table: KeyTable, events: seq<Event>, i: nat, identity: Event -> string)
    requires i < |events| && HeldIs(held, table, events, i, identity)
    requires TellsApart(identity, events, i)
    ensures var e := events[i];
            Fits(table, events, i) <==> HeldAllows(held, Code(table, e), ActionOf(e), identity(e))
  {
  }

  lemma HeldStep(held: map<byte, string>, table: KeyTable, events: seq<Event>, i: nat, identity: Event -> string)
    requires i < |events| && HeldIs(held, table, events, i, identity)
    ensures var e := events[i];
            HeldIs(HeldAfter(held, Code(table, e), ActionOf(e), identity(e)), table, events, i + 1, identity)
  {
    hide Code;
  }

  lemma HeldAtStart(table: KeyTable, events: seq<Event>, identity: Event -> string)
    ensures HeldIs(map[], table, events, 0, identity)
  {
  }

  lemma HeldAtEnd(held: map<byte, string>, table: KeyTable, events: seq<Event>, identity: Event -> string)
    requires HeldIs(held, table, events, |events|, identity)
    ensures |held| == 0 <==> forall code: byte :: Free(table, events, code)
  {
    if |held| != 0 {
      var code :| code in held;
      assert !Free(table, events, code);
    }
  }

  method HostBalance(table: KeyTable, events: seq<Event>) returns (ok: bool)
    requires AllMappable(table, events)
    ensures ok == Balanced(table, events)
  {
    hide HeldIs, Holder, Fits, Code, Identity, TellsApart, Mappable, Free, Balanced, ActionOf;
    var held: map<byte, string> := map[];
    HeldAtStart(table, events, Identity);
    for i := 0 to |events|
      invariant forall j | 0 <= j < i :: Fits(table, events, j)
      invariant HeldIs(held, table, events, i, Identity)
    {
      var code, action, identity := Code(table, events[i]), ActionOf(events[i]), Identity(events[i]);
      HostTellsApart(table, events, i);
      HeldDecides(held, table, events, i, Identity);
      HeldStep(held, table, events, i, Identity);
      if action == Down {
        if code in held {
          BalancedFits(table, events, i);
          return false;
        }
        held := held[code := identity];
      } else {
        if code !in held || held[code] != identity {
          BalancedFits(table, events, i);
          return false;
        }
        held := held - {code};
      }
    }
    HeldAtEnd(held, table, events, Identity);
    BalancedIs(table, events);
    return |held| == 0;
  }

  // ------------------------------------------------------------------ the gate of the interface

  /** An event as the user interface has it: its key may be missing. */
  datatype DraftEvent = DraftEvent(kind: string, action: string, delay: int, key: Option<string>)

  function KeyOf(e: DraftEvent): string {
    if e.key.Some? then e.key.value else ""
  }

  function Stored(e: DraftEvent): Event {
    Event(e.kind, e.action, e.delay, KeyOf(e))
  }

  function StoredAll(drafts: seq<DraftEvent>): (events: seq<Event>)
    ensures |events| == |drafts|
  {
    seq(|drafts|, i requires 0 <= i < |drafts| => Stored(drafts[i]))
  }

  /** The interface names a held key by its identity and a held button by its type. */
  function ShortIdentity(e: Event): string {
    if e.kind == KEYBOARD then e.key else e.kind
  }

  lemma ShortIdentityIsInput(table: KeyTable, a: Event, b: Event)
    requires ProperTable(table) && Mappable(table, a) && Mappable(table, b)
    ensures ShortIdentity(a) == ShortIdentity(b) <==> SameInput(a, b)
  {
  }

  lemma InterfaceTellsApart(table: KeyTable, events: seq<Event>, i: nat)
    requires ProperTable(table) && i < |events| && forall j | 0 <= j <= i :: Mappable(table, events[j])
    ensures TellsApart(ShortIdentity, events, i)
  {
    forall j | 0 <= j < i
      ensures ShortIdentity(events[j]) == ShortIdentity(events[i]) <==> SameInput(events[j], events[i])
    {
      ShortIdentityIsInput(table, events[j], events[i]);
    }
  }

  predicate DraftMappable(table: KeyTable, e: DraftEvent) {
    if e.kind == KEYBOARD then KeyOf(e) in table
    else e.kind in BUTTONS && KeyOf(e) == ""
  }

  lemma DraftIsMappable(table: KeyTable, e: DraftEvent)
    requires ProperTable(table)
    ensures Mappable(table, Stored(e)) <==> DraftMappable(table, e) && e.action in {DOWN, UP} && e.delay >= 0
  {
  }

  /** What an interface that has checked every event still has to know. */
  lemma AdmissibleIs(table: KeyTable, events: seq<Event>, repeat: int, mode: byte)
    ensures Admissible(table, events, repeat, mode) <==>
              && 1 <= |events| <= MAX_EVENTS && 1 <= repeat <= 255 && mode <= 2
              && AllMappable(table, events) && Balanced(table, events)
              && (forall i | 0 <= i < |events| :: ValidDelay(events[i].delay))
              && Extensions(Mapped(table, events)) <= MAX_EXTENSIONS
              && |events| + Extensions(Mapped(table, events)) <= MAX_PAIRS
  {
    hide Balanced, Mappable, ValidDelay, Extensions, Code;
    assert forall i | 0 <= i < |events| :: Mapped(table, events)[i].delay == events[i].delay;
  }

  /** The interface's gate as written, for whole-number repeat counts, modes and delays. */
  method DeviceAdmission(table: KeyTable, drafts: seq<DraftEvent>, repeat: int, mode: int) returns (eligible: bool)
    requires ProperTable(table)
    ensures eligible <==> 0 <= mode <= 255 && Admissible(table, StoredAll(drafts), repeat, mode)
  {
    hide HeldIs, Holder, Fits, Code, ShortIdentity, TellsApart, Mappable, DraftMappable, Balanced, Free;
    hide Admissible, Mapped, Extensions;
    ghost var events := StoredAll(drafts);
    if 0 <= mode <= 255 {
      AdmissibleIs(table, events, repeat, mode);
    }
    if repeat < 1 || repeat > 255 || mode < 0 || mode > 2 || |drafts| < 1 || |drafts| > MAX_EVENTS {
      return false;
    }
    var held: map<byte, string> := map[];
    var extensions := 0;
    HeldAtStart(table, events, ShortIdentity);
    for index := 0 to |drafts|
      invariant forall j | 0 <= j < index ::
                  Mappable(table, events[j]) && ValidDelay(events[j].delay) && Fits(table, events, j)
      invariant HeldIs(held, table, events, index, ShortIdentity)
      invariant extensions + Extensions(Mapped(table, events)[index..]) == Extensions(Mapped(table, events))
    {
      var draft := drafts[index];
      assert events[index] == Stored(draft);
      DraftIsMappable(table, draft);
      if !DraftMappable(table, draft) {
        return false;
      }
      if draft.delay < 0 || draft.delay > 65535 || (draft.delay >= EXTENDED && draft.delay / 200 > 255) {
        return false;
      }
      var raw, identity := Code(table, Stored(draft)), ShortIdentity(Stored(draft));
      if draft.action != DOWN && draft.action != UP {
        return false;
      }
      InterfaceTellsApart(table, events, index);
      HeldDecides(held, table, events, index, ShortIdentity);
      HeldStep(held, table, events, index, ShortIdentity);
      if draft.action == DOWN {
        if raw in held {
          BalancedFits(table, events, index);
          return false;
        }
        held := held[raw := identity];
      } else {
        if raw !in held || held[raw] != identity {
          BalancedFits(table, events, index);
          return false;
        }
        held := held - {raw};
      }
      ExtensionsStep(table, events, index);
      if index < |drafts| - 1 && draft.delay >= EXTENDED {
        extensions := extensions + 1;
      }
    }
    HeldAtEnd(held, table, events, ShortIdentity);
    BalancedIs(table, events);
    NoExtensions(Mapped(table, events)[|drafts|..]);
    return |held| == 0 && extensions <= MAX_EXTENSIONS && |drafts| + extensions <= MAX_PAIRS;
  }

  lemma BalancedFits(table: KeyTable, events: seq<Event>, i: nat)
    requires i < |events|
    ensures Balanced(table, events) ==> Fits(table, events, i)
  {
  }

  lemma BalancedIs(table: KeyTable, events: seq<Event>)
    requires forall i | 0 <= i < |events| :: Fits(table, events, i)
    ensures Balanced(table, events) <==> forall code: byte :: Free(table, events, code)
  {
  }

  lemma NoExtensions(mapped: seq<TimedEvent>)
    requires mapped == []
    ensures Extensions(mapped) == 0
  {
  }

  lemma ExtensionsStep(table: KeyTable, events: seq<Event>, i: nat)
    requires i < |events|
    ensures Extensions(Mapped(table, events)[i..])
         == (if i < |events| - 1 && events[i].delay >= EXTENDED then 1 else 0)
              + Extensions(Mapped(table, events)[i + 1..])
  {
    var mapped := Mapped(table, events);
    assert mapped[i..][1..] == mapped[i + 1..];
  }

  /** The two gates admit the same takes. */
  method GatesAgree(table: KeyTable, drafts: seq<DraftEvent>, repeat: int, mode: byte)
    returns (eligible: bool, block: Option<seq<byte>>)
    requires ProperTable(table)
    ensures eligible <==> block.Some?
  {
    eligible := DeviceAdmission(table, drafts, repeat, mode);
    block := AdmitLocalBlock(table, StoredAll(drafts), repeat, mode);
  }

  // ------------------------------------------------------------------ uploads and the legacy route

  method EncodeLocalUpload(destination: byte, table: KeyTable, events: seq<Event>, repeat: int, mode: byte)
    returns (reports: Option<seq<seq<byte>>>)
    ensures reports.Some? <==> ValidDestination(destination) && Admissible(table, events, repeat, mode)
    ensures reports.Some? ==> reports.value == Framed(destination, AdmittedBlock(table, events, repeat, mode))
  {
    if !ValidDestination(destination) {
      return None;
    }
    var block := AdmitLocalBlock(table, events, repeat, mode);
    if block.None? {
      return None;
    }
    var framed := EncodeFraming(destination, block.value);
    return Some(framed);
  }

  predicate IsClick(down: Event, up: Event) {
    && down.key == "" && up.key == "" && down.kind == up.kind
    && down.action == DOWN && up.action == UP && down.delay == 0 && up.delay == 0
  }

  /** One or two complete clicks of buttons without delays. */
  predicate Clicks(events: seq<Event>) {
    && (|events| == 2 || |events| == 4)
    && forall i | 0 <= i < |events| / 2 :: IsClick(events[2 * i], events[2 * i + 1])
  }

  function ClickButtons(events: seq<Event>): (buttons: seq<string>)
    ensures |buttons| == |events| / 2
  {
    seq(|events| / 2, i requires 0 <= i < |events| / 2 => events[2 * i].kind)
  }

  lemma ClicksAre(events: seq<Event>, a: Event, b: Event, c: Event, d: Event)
    ensures Clicks(events) ==> |events| == 2 || |events| == 4
    ensures Clicks([a, b]) <==>
              && a.kind == b.kind && a.key == b.key == "" && a.delay == b.delay == 0
              && a.action == "down" && b.action == "up"
    ensures Clicks([a, b, c, d]) <==> Clicks([a, b]) && Clicks([c, d])
    ensures ClickButtons([a, b]) == [a.kind] && ClickButtons([a, b, c, d]) == [a.kind, c.kind]
  {
    assert Clicks([a, b]) <==> IsClick([a, b][2 * 0], [a, b][2 * 0 + 1]);
    assert Clicks([c, d]) <==> IsClick([c, d][2 * 0], [c, d][2 * 0 + 1]);
    hide IsClick;
    var all := [a, b, c, d];
    assert Clicks(all) <==> IsClick(all[2 * 0], all[2 * 0 + 1]) && IsClick(all[2 * 1], all[2 * 1 + 1]);
  }

  method AdmittedSequence(events: seq<Event>, repeat: int, mode: byte) returns (sequence: Option<Sequence>)
    ensures sequence.Some? <==> Clicks(events) && ValidSequence(Sequence(ClickButtons(events), repeat, mode))
    ensures sequence.Some? ==> sequence.value == Sequence(ClickButtons(events), repeat, mode)
  {
    if repeat < 1 || repeat > 255 || (|events| != 2 && |events| != 4) {
      return None;
    }
    var buttons: seq<string> := [];
    for i := 0 to |events| / 2
      invariant |buttons| == i
      invariant forall j | 0 <= j < i :: IsClick(events[2 * j], events[2 * j + 1]) && buttons[j] == events[2 * j].kind
    {
      var down, up := events[2 * i], events[2 * i + 1];
      if down.key != "" || up.key != "" || down.kind != up.kind || down.action != DOWN || up.action != UP
         || down.delay != 0 || up.delay != 0
      {
        return None;
      }
      buttons := buttons + [down.kind];
    }
    assert buttons == ClickButtons(events);
    var block := EncodeSequenceBlock(Sequence(buttons, repeat, mode));
    if block.None? {
      return None;
    }
    return Some(Sequence(buttons, repeat, mode));
  }

  /** The events of complete clicks without delays. */
  function ClickEvents(buttons: seq<string>): (mapped: seq<TimedEvent>)
    requires forall i | 0 <= i < |buttons| :: buttons[i] in BUTTONS
    ensures |mapped| == 2 * |buttons| && forall i | 0 <= i < |mapped| :: mapped[i].delay == 0
  {
    if buttons == [] then []
    else
      var code := ButtonCode(buttons[0]);
      [TimedEvent(code, Down, 0), TimedEvent(code, Up, 0)] + ClickEvents(buttons[1..])
  }

  /** The terminal delay makes no difference to an event without a delay. */
  lemma ClickPairsOf(code: byte)
    ensures EventPairs(code, Down, 0) == [1, code]
    ensures EventPairs(code, Up, 0) == EventPairs(code, Up, TERMINAL_DELAY) == [0x81, code]
  {
  }

  lemma OneClick(code: byte, rest: seq<TimedEvent>)
    requires forall i | 0 <= i < |rest| :: rest[i].delay == 0
    ensures var mapped := [TimedEvent(code, Down, 0), TimedEvent(code, Up, 0)] + rest;
            && (forall i | 0 <= i < |mapped| :: mapped[i].delay == 0)
            && Pairs(mapped) == [1, code, 0x81, code] + Pairs(rest)
            && Extensions(mapped) == Extensions(rest)
  {
    hide EventPairs, Pairs, Extensions;
    var mapped := [TimedEvent(code, Down, 0), TimedEvent(code, Up, 0)] + rest;
    assert mapped[1..] == [TimedEvent(code, Up, 0)] + rest && mapped[1..][1..] == rest;
    OneMoreEvent(mapped[1..]);
    OneMoreEvent(mapped);
    ClickPairsOf(code);
    assert [1, code] + ([0x81, code] + Pairs(rest)) == [1, code, 0x81, code] + Pairs(rest);
  }

  lemma {:induction false} ClicksEncode(buttons: seq<string>)
    requires forall i | 0 <= i < |buttons| :: buttons[i] in BUTTONS
    ensures Pairs(ClickEvents(buttons)) == ClickPairs(buttons) && Extensions(ClickEvents(buttons)) == 0
  {
    hide ButtonCode, Pairs, Extensions;
    if buttons == [] {
      NoEvents();
    } else {
      ClicksEncode(buttons[1..]);
      OneClick(ButtonCode(buttons[0]), ClickEvents(buttons[1..]));
    }
  }

  lemma NoEvents()
    ensures Pairs([]) == [] && Extensions([]) == 0
  {
  }

  lemma OneMoreEvent(mapped: seq<TimedEvent>)
    requires mapped != [] && forall i | 0 <= i < |mapped| :: ValidDelay(mapped[i].delay)
    ensures Pairs(mapped) == EventPairs(mapped[0].code, mapped[0].action, EncodedDelay(mapped)) + Pairs(mapped[1..])
    ensures EncodedDelay(mapped) < EXTENDED ==> Extensions(mapped) == Extensions(mapped[1..])
  {
  }

  lemma ClicksAreMapped(table: KeyTable, events: seq<Event>)
    requires Clicks(events)
    requires forall i | 0 <= i < |events| / 2 :: ClickButtons(events)[i] in BUTTONS
    ensures Mapped(table, events) == ClickEvents(ClickButtons(events))
    ensures forall i | 0 <= i < |events| ::
              events[i].kind in BUTTONS && events[i].kind != KEYBOARD && events[i].key == ""
  {
    hide ButtonCode;
    KeyboardIsNoButton();
    var buttons := ClickButtons(events);
    assert buttons[0] == events[2 * 0].kind == events[2 * 0 + 1].kind;
    if |events| == 2 {
      assert buttons == [events[0].kind];
      assert ClickEvents(buttons[1..]) == [];
    } else {
      assert buttons[1] == events[2 * 1].kind == events[2 * 1 + 1].kind;
      assert buttons[1..] == [events[2].kind] && buttons[1..][1..] == [];
    }
  }

  lemma ClicksAreBalanced(table: KeyTable, events: seq<Event>)
    requires Clicks(events)
    requires forall i | 0 <= i < |events| ::
               events[i].kind in BUTTONS && events[i].kind != KEYBOARD && events[i].key == ""
    ensures AllMappable(table, events) && Balanced(table, events)
  {
    hide ButtonCode, Holder, Fits, IsClick, Mappable;
    forall i | 0 <= i < |events| ensures Mappable(table, events[i]) {
      ClickIsMappable(table, events, i);
    }
    assert IsClick(events[2 * 0], events[2 * 0 + 1]);
    NothingHeld(table, events);
    ClickFits(table, events, 0);
    if |events| == 4 {
      assert IsClick(events[2 * 1], events[2 * 1 + 1]);
      ClickFits(table, events, 2);
    }
    forall i | 0 <= i < |events| ensures Fits(table, events, i) {
    }
    assert NoneHeld(table, events, |events|);
    forall code: byte ensures Free(table, events, code) {
    }
    BalancedIs(table, events);
  }

  lemma ClickIsMappable(table: KeyTable, events: seq<Event>, i: nat)
    requires Clicks(events) && i < |events|
    requires events[i].kind in BUTTONS && events[i].kind != KEYBOARD && events[i].key == ""
    ensures Mappable(table, events[i])
  {
    assert IsClick(events[2 * (i / 2)], events[2 * (i / 2) + 1]);
  }

  ghost predicate NoneHeld(table: KeyTable, events: seq<Event>, n: nat)
    requires n <= |events|
  {
    forall code: byte :: Holder(table, events, n, code) < 0
  }

  lemma NothingHeld(table: KeyTable, events: seq<Event>)
    ensures NoneHeld(table, events, 0)
  {
  }

  /** A click leaves every code as free as it was. */
  lemma ClickFits(table: KeyTable, events: seq<Event>, n: nat)
    requires n + 2 <= |events| && IsClick(events[n], events[n + 1])
    requires NoneHeld(table, events, n)
    ensures Fits(table, events, n) && Fits(table, events, n + 1)
    ensures NoneHeld(table, events, n + 2)
  {
    hide Holder, Code;
    HolderStep(table, events, n, Code(table, events[n]));
    SameCode(table, events[n], events[n + 1]);
    var later := n + 2;
    forall code: byte ensures Holder(table, events, later, code) < 0 {
      HolderStep(table, events, n, code);
      HolderStep(table, events, n + 1, code);
    }
  }

  lemma HolderStep(table: KeyTable, events: seq<Event>, n: nat, code: byte)
    requires n < |events|
    ensures Holder(table, events, n + 1, code)
         == if Code(table, events[n]) != code then Holder(table, events, n, code)
            else if ActionOf(events[n]) == Down then n else -1
  {
  }

  lemma SameCode(table: KeyTable, down: Event, up: Event)
    requires IsClick(down, up)
    ensures Code(table, down) == Code(table, up) && SameInput(down, up)
    ensures ActionOf(down) == Down && ActionOf(up) == Up
  {
  }

  /** Whatever goes by the legacy route could go by the local one, with the identical block. */
  lemma LegacyRouteIsLocal(table: KeyTable, events: seq<Event>, repeat: int, mode: byte)
    requires Clicks(events) && ValidSequence(Sequence(ClickButtons(events), repeat, mode))
    ensures Admissible(table, events, repeat, mode)
    ensures AdmittedBlock(table, events, repeat, mode) == SequenceBlock(Sequence(ClickButtons(events), repeat, mode))
  {
    hide Pairs, ClickPairs, Extensions, Balanced, AllMappable, Clicks, ClickEvents;
    ClicksAreMapped(table, events);
    ClicksAreBalanced(table, events);
    ClicksEncode(ClickButtons(events));
  }
}
