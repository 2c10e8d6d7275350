/** Switching the active profile (internal/desktop/profiles.go): the whole configuration of a profile
    is sent to the mouse lane by lane, and only then does the active pointer of the store move.

    Between any two steps the selection may change and new enumerations may happen, and the user
    may stage other settings of any device. Staging changes what is pending, never what is
    applied. Selecting a device that is not loaded yet reads its lanes from the disk. */
module ProfileSwitch {
  import opened DeviceService
  import opened Text
  import MacroUpload

  type Value = string

  datatype Firmware = Unset | Pending | Succeeded | Failed
  datatype Persistence = NotTried | Saved | NotSaved
  datatype ErrorCode = NoError | SelectionRequired | ProfileUnavailable | StaleBinding | ApplyFailed | PersistenceFailed

  datatype Lane = Lane(
    applied: Value, pending: Value, firmware: Firmware, persistence: Persistence, error: ErrorCode,
    revision: nat, retry: bool, persisted: Option<Value>)

  /** The lanes of the sleep and the response time have no separate applied value. */
  datatype Lanes = Lanes(
    dpi: Lane, polling: Lane, sleep: Lane, response: Lane, lighting: Lane, remap: Lane, progress: MacroUpload.Progress)

  /** The configuration of the profile to switch to. */
  datatype Target = Target(
    dpi: Value, polling: Value, sleep: Value, response: Value,
    lighting: Option<Value>, remap: Option<Value>, macros: seq<Value>)

  const DEFAULT_LIGHTING: Value := "default lighting"
  const DEFAULT_REMAP: Value := "default remap"

  function LightingOf(t: Target): Value {
    if t.lighting.Some? then t.lighting.value else DEFAULT_LIGHTING
  }

  /** The remap lane carries the buttons together with their macros. */
  function RemapOf(t: Target): Value {
    Join([if t.remap.Some? then t.remap.value else DEFAULT_REMAP] + t.macros, '\n')
  }

  datatype Step = DPI | Polling | Settings | Remap

  const STEPS := [DPI, Polling, Settings, Remap]

  function Confirmed(l: Lane, value: Value): Lane {
    l.(applied := value, pending := value, firmware := Succeeded, persistence := NotTried, error := NoError)
  }

  function Refused(l: Lane, code: ErrorCode): Lane {
    l.(firmware := Failed, error := code)
  }

  /** What an acknowledged step commits. */
  function Acked(l: Lanes, t: Target, step: Step): Lanes {
    match step
    case DPI => l.(dpi := Confirmed(l.dpi, t.dpi))
    case Polling => l.(polling := Confirmed(l.polling, t.polling))
    case Settings =>
      l.(sleep := Confirmed(l.sleep, t.sleep), response := Confirmed(l.response, t.response),
         lighting := Confirmed(l.lighting, LightingOf(t)).(persistence := l.lighting.persistence))
    case Remap => l.(remap := Confirmed(l.remap, RemapOf(t)))
  }

  /** What a step that was not acknowledged leaves. */
  function Failing(l: Lanes, step: Step, code: ErrorCode): Lanes {
    match step
    case DPI => l.(dpi := Refused(l.dpi, code))
    case Polling => l.(polling := Refused(l.polling, code))
    case Settings =>
      l.(sleep := Refused(l.sleep, code), response := Refused(l.response, code), lighting := Refused(l.lighting, code))
    case Remap => l.(remap := Refused(l.remap, code))
  }

  /** The first `n` steps are complete. */
  function Completed(l: Lanes, t: Target, n: nat): Lanes
    requires n <= |STEPS|
  {
    if n == 0 then l else Acked(Completed(l, t, n - 1), t, STEPS[n - 1])
  }

  /** Pending work of the lanes is called off. */
  function Quiesced(l: Lanes): Lanes {
    l.(dpi := l.dpi.(revision := l.dpi.revision + 1, retry := false),
       polling := l.polling.(revision := l.polling.revision + 1, retry := false),
       sleep := l.sleep.(retry := false),
       response := l.response.(retry := false),
       remap := l.remap.(retry := false))
  }

  function Kept(l: Lane, saved: bool): Lane {
    if saved then l.(persistence := Saved, error := NoError)
    else l.(persistence := NotSaved, error := PersistenceFailed)
  }

  /** What the last commit writes into every lane. */
  function Persisted(l: Lanes, t: Target, saved: bool): Lanes {
    l.(dpi := Kept(l.dpi, saved),
       polling := Kept(l.polling, saved).(persisted := if saved then Some(t.polling) else l.polling.persisted),
       sleep := Kept(l.sleep, saved).(persisted := if saved then Some(t.sleep) else l.sleep.persisted),
       response := Kept(l.response, saved).(persisted := if saved then Some(t.response) else l.response.persisted),
       lighting := l.lighting.(error := if saved then NoError else PersistenceFailed),
       remap := Kept(l.remap, saved))
  }

  // ------------------------------------------------------------------ what selecting a device loads

  /** What the disk has for a device: the records of single lanes and the active profile. Records that
      cannot be read are left out; for the settings it matters whether there is no record at all, and
      each of the two values counts only if it is valid. */
  datatype Stored = Stored(
    dpi: Option<Value>, polling: Option<Value>, settings: SettingsRecord, profile: Option<Target>)

  datatype SettingsRecord = Unreadable | Missing | Record(sleep: Option<Value>, response: Option<Value>)

  const DEFAULT_SLEEP: Value := "default sleep"
  const DEFAULT_RESPONSE: Value := "default response"

  function Replaced(saved: Option<Value>, otherwise: Value): Lane {
    var value := if saved.Some? then saved.value else otherwise;
    Lane(value, value, Unset, if saved.Some? then Saved else NotTried, NoError, 0, false, saved)
  }

  function WithSettings(l: Lanes, sleep: Option<Value>, response: Option<Value>): Lanes {
    l.(sleep := Replaced(sleep, DEFAULT_SLEEP), response := Replaced(response, DEFAULT_RESPONSE))
  }

  /** The records of single lanes. */
  function Hydrated(l: Lanes, stored: Stored): Lanes {
    var next := match stored.settings
                case Unreadable => l
                case Missing => WithSettings(l, None, None)
                case Record(sleep, response) => WithSettings(l, sleep, response);
    next.(dpi := if stored.dpi.Some? then l.dpi.(applied := stored.dpi.value, pending := stored.dpi.value) else l.dpi,
          polling := if stored.polling.Some? then
                       Lane(stored.polling.value, stored.polling.value, Unset, NotTried, l.polling.error, 0, false,
                            stored.polling)
                     else l.polling)
  }

  /** The active profile, which claims nothing about the hardware but sets what counts as applied. */
  function Restored(l: Lanes, p: Target): Lanes {
    WithSettings(l, Some(p.sleep), Some(p.response))
      .(dpi := l.dpi.(applied := p.dpi, pending := p.dpi),
        polling := l.polling.(
          applied := p.polling, pending := p.polling, persisted := Some(p.polling), persistence := Saved),
        lighting := l.lighting.(pending := LightingOf(p)),
        remap := l.remap.(applied := RemapOf(p), pending := RemapOf(p)))
  }

  /** The selected device, the lanes of all devices and those whose profile was loaded in this session. */
  datatype World = World(inventory: Inventory, lanes: map<DeviceID, Lanes>, loaded: set<DeviceID>) {
    predicate Reloads(id: DeviceID) {
      id in lanes && id !in loaded
    }

    /** The end of every selection, automatic or not. */
    function Restoring(id: DeviceID, profile: Option<Target>): World {
      if Reloads(id) && profile.Some? then
        this.(lanes := lanes[id := Restored(lanes[id], profile.value)], loaded := loaded + {id})
      else this
    }

    /** The user selects a device. */
    function Selecting(id: DeviceID, stored: Stored): World {
      if !CanSelect(inventory, id) then this
      else
        var selected := this.(inventory := Selected(inventory, id));
        if Reloads(id) then
          selected.(lanes := lanes[id := Hydrated(lanes[id], stored)]).Restoring(id, stored.profile)
        else selected
    }

    /** An enumeration selects the only eligible device, and new devices get their lanes. */
    function Refreshing(registry: Registry, e: Enumeration, added: map<DeviceID, Lanes>, profile: Option<Target>): World
      requires e.Valid()
    {
      var next := World(Refreshed(inventory, registry, e), added + lanes, loaded);
      if next.inventory.selection.Some? then next.Restoring(next.inventory.selection.value.id, profile) else next
    }

    /** A step commits while its binding is selected. */
    function Committing(b: Binding, t: Target, step: Step): World {
      if inventory.selection == Some(b) && b.id in lanes then this.(lanes := lanes[b.id := Acked(lanes[b.id], t, step)])
      else this
    }
  }

  /** Selecting a device leaves its lanes alone, whatever the disk has, exactly if it is loaded, or
      cannot be selected, or has no lanes. */
  lemma SelectingKeepsLanesIff(w: World, id: DeviceID)
    ensures (forall stored :: w.Selecting(id, stored).lanes == w.lanes) <==>
              !CanSelect(w.inventory, id) || !w.Reloads(id)
  {
    if CanSelect(w.inventory, id) && w.Reloads(id) {
      var other := w.lanes[id].dpi.applied + "!";
      var stored := Stored(Some(other), None, Unreadable, None);
      assert w.Selecting(id, stored).lanes[id].dpi.applied == other;
    }
  }

  /** What a lane shows: the applied and the pending value, and whether it is saved. */
  predicate Shows(l: Lane, value: Value, saved: Option<Value>) {
    && l.applied == l.pending == value && l.persisted == saved
    && l.persistence == (if saved.Some? then Saved else NotTried)
  }

  /** What selecting a device that was not loaded makes of its active profile, if the disk has one: it decides
      every value, but the lighting that is applied stays. Nobody else's lanes change, and only a profile
      counts as loaded. */
  lemma SelectingLoads(w: World, id: DeviceID, stored: Stored)
    requires CanSelect(w.inventory, id) && w.Reloads(id)
    ensures var next := w.Selecting(id, stored);
            && next.lanes.Keys == w.lanes.Keys
            && (forall other | other in w.lanes && other != id :: next.lanes[other] == w.lanes[other])
            && next.loaded == (if stored.profile.Some? then w.loaded + {id} else w.loaded)
            && next.lanes[id].progress == w.lanes[id].progress
    ensures stored.profile.Some? ==>
              var p, l := stored.profile.value, w.Selecting(id, stored).lanes[id];
              && (l.dpi.applied, l.dpi.pending) == (p.dpi, p.dpi)
              && Shows(l.polling, p.polling, Some(p.polling)) && Shows(l.sleep, p.sleep, Some(p.sleep))
              && Shows(l.response, p.response, Some(p.response))
              && l.lighting == w.lanes[id].lighting.(pending := LightingOf(p))
              && (l.remap.applied, l.remap.pending) == (RemapOf(p), RemapOf(p))
  {
    hide LightingOf, RemapOf, Selected;
  }

  /** And of the records, without such a profile: each decides its lane, no record leaves it, and a missing or
      half valid record of the settings gives defaults. */
  lemma SelectingReads(w: World, id: DeviceID, stored: Stored)
    requires CanSelect(w.inventory, id) && w.Reloads(id) && stored.profile.None?
    ensures var was, l := w.lanes[id], w.Selecting(id, stored).lanes[id];
            && (stored.dpi.Some? ==> (l.dpi.applied, l.dpi.pending) == (stored.dpi.value, stored.dpi.value))
            && (stored.dpi.None? ==> l.dpi == was.dpi)
            && (stored.polling.Some? ==>
                  && (l.polling.applied, l.polling.pending) == (stored.polling.value, stored.polling.value)
                  && l.polling.persisted == stored.polling)
            && (stored.polling.None? ==> l.polling == was.polling)
            && (stored.settings == Unreadable ==> l.sleep == was.sleep && l.response == was.response)
            && (stored.settings == Missing ==>
                  Shows(l.sleep, DEFAULT_SLEEP, None) && Shows(l.response, DEFAULT_RESPONSE, None))
            && (stored.settings.Record? ==>
                  var sleep, response := stored.settings.sleep, stored.settings.response;
                  && Shows(l.sleep, if sleep.Some? then sleep.value else DEFAULT_SLEEP, sleep)
                  && Shows(l.response, if response.Some? then response.value else DEFAULT_RESPONSE, response))
            && l.lighting == was.lighting && l.remap == was.remap
  {
    hide LightingOf, RemapOf, Selected, Restored;
  }

  /** What goes to the mouse when the profile has no lighting or no buttons of its own, and that the macros
      go with the buttons, in their order. */
  lemma TargetsAre(t: Target, macro: Value)
    ensures LightingOf(t) == if t.lighting == None then DEFAULT_LIGHTING else t.lighting.value
    ensures t.macros == [] ==> RemapOf(t) == if t.remap == None then DEFAULT_REMAP else t.remap.value
    ensures RemapOf(t.(macros := t.macros + [macro])) == RemapOf(t) + "\n" + macro
  {
    var buttons := if t.remap.Some? then t.remap.value else DEFAULT_REMAP;
    assert [buttons] + (t.macros + [macro]) == [buttons] + t.macros + [macro];
    JoinAppend([buttons] + t.macros, '\n', macro);
  }

  // ------------------------------------------------------------------ what happens meanwhile

  /** What has happened since the switch began: whether the user staged settings, which devices were
      selected, and which of them were loaded from the disk then. */
  datatype Drift = Drift(edited: bool, reselected: set<DeviceID>, reloaded: set<DeviceID>)

  const STILL := Drift(false, {}, {})

  predicate Grows(before: Drift, loaded: set<DeviceID>, after: Drift, loadedNow: set<DeviceID>) {
    && (before.edited ==> after.edited)
    && before.reselected <= after.reselected && before.reloaded <= after.reloaded && loaded <= loadedNow
    && after.reloaded - before.reloaded <= after.reselected - loaded
  }

  lemma GrowsAgain(
    first: Drift, loaded: set<DeviceID>, second: Drift, loadedThen: set<DeviceID>,
    third: Drift, loadedNow: set<DeviceID>)
    requires Grows(first, loaded, second, loadedThen) && Grows(second, loadedThen, third, loadedNow)
    ensures Grows(first, loaded, third, loadedNow)
  {
    forall id | id in third.reloaded - first.reloaded ensures id in third.reselected - loaded {
      if id in second.reloaded {
        assert id in second.reloaded - first.reloaded;
      } else {
        assert id in third.reloaded - second.reloaded;
      }
    }
  }

  /** The values the mouse is known to have. */
  function AppliedOf(l: Lanes): (Value, Value, Value, Value) {
    (l.dpi.applied, l.polling.applied, l.lighting.applied, l.remap.applied)
  }

  /** The lanes are as expected, but for what the user staged meanwhile. */
  predicate Agrees(edited: bool, actual: Lanes, expected: Lanes) {
    if edited then AppliedOf(actual) == AppliedOf(expected)
    else actual == expected.(progress := actual.progress)
  }

  /** Nothing is known of the lanes of a device that was loaded meanwhile. */
  predicate Fits(drift: Drift, id: DeviceID, actual: Lanes, expected: Lanes) {
    id in drift.reloaded || Agrees(drift.edited, actual, expected)
  }

  ghost predicate Staged(drift: Drift, actual: map<DeviceID, Lanes>, expected: map<DeviceID, Lanes>) {
    forall id | id in expected :: id in actual && Fits(drift, id, actual[id], expected[id])
  }

  lemma StagedAgain(
    first: Drift, second: Drift,
    before: map<DeviceID, Lanes>, between: map<DeviceID, Lanes>, after: map<DeviceID, Lanes>)
    requires Staged(first, between, before) && Staged(second, after, between)
    requires (first.edited ==> second.edited) && first.reloaded <= second.reloaded
    ensures Staged(second, after, before)
  {
  }

  /** What happens to one device, seen from all of them. */
  lemma StagedOne(drift: Drift, lanes: map<DeviceID, Lanes>, id: DeviceID, l: Lanes, after: map<DeviceID, Lanes>)
    requires id in lanes && Fits(drift, id, l, lanes[id]) && after == lanes[id := l]
    ensures Staged(drift, after, lanes)
  {
  }

  /** What a switch does, with what was selected when it did it. A report is on its way only after it was
      let through; `selected` is what was selected then. */
  datatype Entry =
    | Begun(binding: Binding, selected: Option<Binding>) // before the lanes are quiesced
    | Filed(binding: Binding, selected: Option<Binding>) // before the device's configuration is saved
    | Activated(binding: Binding, selected: Option<Binding>) // the store is told to move its pointer
    | Checked(step: Step, binding: Binding, selected: Option<Binding>)
    | Sent(step: Step, binding: Binding, selected: Option<Binding>)
    | Answered(step: Step, binding: Binding)
    | Committed(step: Step, binding: Binding, selected: Option<Binding>)

  /** The first `n` entries of a step whose binding was selected at every check. */
  function Trail(step: Step, b: Binding, n: nat): (trail: seq<Entry>)
    requires n <= 5
    ensures |trail| == n
  {
    [Checked(step, b, Some(b)), Sent(step, b, Some(b)), Answered(step, b),
     Checked(step, b, Some(b)), Committed(step, b, Some(b))][..n]
  }

  /** Those of the first `n` steps. */
  function Trails(b: Binding, n: nat): seq<Entry>
    requires n <= |STEPS|
  {
    if n == 0 then [] else Trails(b, n - 1) + Trail(STEPS[n - 1], b, 5)
  }

  /** And of as much as happened of the next one, or after all of them. */
  function TrailsAnd(b: Binding, done: nat, reach: nat): seq<Entry>
    requires done <= |STEPS| && reach <= if done < |STEPS| then 5 else 2
  {
    Trails(b, done) +
    (if done < |STEPS| then Trail(STEPS[done], b, reach) else [Filed(b, Some(b)), Activated(b, Some(b))][..reach])
  }

  // ------------------------------------------------------------------ the story of a switch

  /** All that changes the world during a switch, and what the switch logs: the switch quiesces the lanes,
      notes the progress of an upload, gives up a step, and tells the lanes how its end was saved; in
      between there are enumerations, selections and edits. */
  datatype Happening =
    | Logging(entry: Entry)
    | Quieting(binding: Binding)
    | Progressing(binding: Binding, progress: MacroUpload.Progress)
    | GivingUp(binding: Binding, step: Step, code: ErrorCode)
    | Keeping(binding: Binding, saved: bool)
    | Enumerating(e: Enumeration, added: map<DeviceID, Lanes>, profile: Option<Target>)
    | Choosing(id: DeviceID, stored: Stored)
    | Editing(id: DeviceID, lanes: Lanes)

  function Tell(w: World, registry: Registry, t: Target, h: Happening): World {
    match h
    case Logging(Committed(step, b, _)) => w.Committing(b, t, step)
    case Logging(_) => w
    case Quieting(b) => if b.id in w.lanes then w.(lanes := w.lanes[b.id := Quiesced(w.lanes[b.id])]) else w
    case Progressing(b, progress) =>
      if b.id in w.lanes then w.(lanes := w.lanes[b.id := w.lanes[b.id].(progress := progress)]) else w
    case GivingUp(b, step, code) =>
      if b.id in w.lanes then w.(lanes := w.lanes[b.id := Failing(w.lanes[b.id], step, code)]) else w
    case Keeping(b, saved) =>
      if b.id in w.lanes then w.(lanes := w.lanes[b.id := Persisted(w.lanes[b.id], t, saved)]) else w
    case Enumerating(e, added, profile) => if e.Valid() then w.Refreshing(registry, e, added, profile) else w
    case Choosing(id, stored) => w.Selecting(id, stored)
    case Editing(id, lanes) =>
      if id in w.lanes && AppliedOf(lanes) == AppliedOf(w.lanes[id]) then w.(lanes := w.lanes[id := lanes]) else w
  }

  /** The world after a story. */
  function Told(w: World, registry: Registry, t: Target, story: seq<Happening>): World {
    if story == [] then w
    else Tell(Told(w, registry, t, story[..|story| - 1]), registry, t, story[|story| - 1])
  }

  function EntriesOf(story: seq<Happening>): seq<Entry> {
    if story == [] then []
    else
      var last := story[|story| - 1];
      EntriesOf(story[..|story| - 1]) + (if last.Logging? then [last.entry] else [])
  }

  /** What is logged as selected was selected. */
  predicate Honest(w: World, h: Happening) {
    h.Logging? && !h.entry.Answered? ==> h.entry.selected == w.inventory.selection
  }

  predicate Truthful(w: World, registry: Registry, t: Target, story: seq<Happening>) {
    story != [] ==>
      && Truthful(w, registry, t, story[..|story| - 1])
      && Honest(Told(w, registry, t, story[..|story| - 1]), story[|story| - 1])
  }

  /** The world of now is that of the story, and so is the log. */
  ghost predicate Chronicle(
    w: World, registry: Registry, t: Target, story: seq<Happening>, earlier: seq<Entry>, now: World, log: seq<Entry>)
  {
    now == Told(w, registry, t, story) && Truthful(w, registry, t, story) && log == earlier + EntriesOf(story)
  }

  lemma OneMoreHappening(w: World, registry: Registry, t: Target, story: seq<Happening>, h: Happening)
    ensures Told(w, registry, t, story + [h]) == Tell(Told(w, registry, t, story), registry, t, h)
    ensures EntriesOf(story + [h]) == EntriesOf(story) + (if h.Logging? then [h.entry] else [])
    ensures Truthful(w, registry, t, story + [h]) <==>
              Truthful(w, registry, t, story) && Honest(Told(w, registry, t, story), h)
  {
    assert (story + [h])[..|story|] == story;
  }

  lemma ChronicleGrows(
    w: World, registry: Registry, t: Target, story: seq<Happening>, earlier: seq<Entry>, before: World,
    logged: seq<Entry>, h: Happening)
    requires Chronicle(w, registry, t, story, earlier, before, logged) && Honest(before, h)
    ensures Chronicle(w, registry, t, story + [h], earlier, Tell(before, registry, t, h),
                      logged + if h.Logging? then [h.entry] else [])
  {
    hide Tell, Honest;
    OneMoreHappening(w, registry, t, story, h);
  }

  lemma NothingTold(w: World, registry: Registry, t: Target, log: seq<Entry>)
    ensures Chronicle(w, registry, t, [], log, w, log)
  {
  }

  function Logged(entries: seq<Entry>): (story: seq<Happening>)
    ensures |story| == |entries|
  {
    seq(|entries|, i requires 0 <= i < |entries| => Logging(entries[i]))
  }

  /** The device is selected again after the first step, when the disk has another profile for it. */
  function Reselection(b: Binding, saved: Target): seq<Happening> {
    Logged([Begun(b, Some(b))]) + [Quieting(b)] + Logged(Trail(DPI, b, 5))
    + [Choosing(b.id, Stored(None, None, Unreadable, Some(saved)))]
    + Logged(Trail(Polling, b, 5)) + Logged(Trail(Settings, b, 5)) + Logged(Trail(Remap, b, 5))
    + Logged([Filed(b, Some(b)), Activated(b, Some(b))]) + [Keeping(b, true)]
  }

  /** A story of a switch that logs all that a successful one logs, with the device selected at every
      check; and yet the first lane, which was acknowledged, counts as having another value in the end.
      The device was not loaded when the switch began. */
  lemma ReselectionUndoesStep(w: World, registry: Registry, b: Binding, t: Target, saved: Target)
    requires w.inventory.selection == Some(b) && Usable(w.inventory) && b.revision == w.inventory.revision
    requires w.Reloads(b.id) && saved.dpi != t.dpi
    ensures var story := Reselection(b, saved);
            && Truthful(w, registry, t, story)
            && EntriesOf(story) == [Begun(b, Some(b))] + TrailsAnd(b, |STEPS|, 2)
    ensures var end := Told(w, registry, t, Reselection(b, saved));
            && end.inventory.selection == Some(b) && b.id in end.lanes
            && end.lanes[b.id].dpi.applied == saved.dpi != t.dpi
            && end.lanes[b.id].polling.applied == t.polling && end.lanes[b.id].remap.applied == RemapOf(t)
  {
    hide RemapOf, Told, Truthful, EntriesOf, Trail, TrailsAnd, Tell, World.Committing, World.Selecting, Persisted;
    var choice := Choosing(b.id, Stored(None, None, Unreadable, Some(saved)));
    var begun := Logged([Begun(b, Some(b))]);
    NoHappening(w, registry, t);
    QuietEntries(w, registry, t, [], [Begun(b, Some(b))]);
    assert [] + begun == begun;
    OneMoreHappening(w, registry, t, begun, Quieting(b));
    var quiet := begun + [Quieting(b)];
    var start := Tell(w, registry, t, Quieting(b));
    QuietIsReloadable(w, registry, t, b);
    StepsLoseStep(start, b, t, saved);
    StepStory(w, registry, t, quiet, b, DPI);
    var first := quiet + Logged(Trail(DPI, b, 5));
    OneMoreHappening(w, registry, t, first, choice);
    ChoosingIs(Told(w, registry, t, first), registry, t, b.id, choice.stored);
    StepStory(w, registry, t, first + [choice], b, Polling);
    var second := first + [choice] + Logged(Trail(Polling, b, 5));
    StepStory(w, registry, t, second, b, Settings);
    var third := second + Logged(Trail(Settings, b, 5));
    StepStory(w, registry, t, third, b, Remap);
    EndStory(w, registry, t, third + Logged(Trail(Remap, b, 5)), b);
    KeepingIs(Told(w, registry, t, third + Logged(Trail(Remap, b, 5))), registry, t, b, true);
    FourTrails(b);
  }

  lemma QuietIsReloadable(w: World, registry: Registry, t: Target, b: Binding)
    requires w.Reloads(b.id)
    ensures var start := Tell(w, registry, t, Quieting(b)); start.inventory == w.inventory && start.Reloads(b.id)
  {
  }

  lemma ChoosingIs(w: World, registry: Registry, t: Target, id: DeviceID, stored: Stored)
    ensures Tell(w, registry, t, Choosing(id, stored)) == w.Selecting(id, stored)
  {
  }

  lemma EnumeratingIs(
    w: World, registry: Registry, t: Target, e: Enumeration, added: map<DeviceID, Lanes>, profile: Option<Target>)
    requires e.Valid()
    ensures Tell(w, registry, t, Enumerating(e, added, profile)) == w.Refreshing(registry, e, added, profile)
  {
  }

  lemma EditingIs(w: World, registry: Registry, t: Target, id: DeviceID, lanes: Lanes)
    requires id in w.lanes && AppliedOf(lanes) == AppliedOf(w.lanes[id])
    ensures Tell(w, registry, t, Editing(id, lanes)) == w.(lanes := w.lanes[id := lanes])
  {
  }

  lemma CommittingIs(w: World, registry: Registry, t: Target, b: Binding, step: Step)
    requires b.id in w.lanes && w.inventory.selection == Some(b)
    ensures Tell(w, registry, t, Logging(Committed(step, b, Some(b))))
              == w.(lanes := w.lanes[b.id := Acked(w.lanes[b.id], t, step)])
  {
  }

  lemma QuietingIs(w: World, registry: Registry, t: Target, b: Binding)
    requires b.id in w.lanes
    ensures Tell(w, registry, t, Quieting(b)) == w.(lanes := w.lanes[b.id := Quiesced(w.lanes[b.id])])
  {
  }

  lemma ProgressingIs(w: World, registry: Registry, t: Target, b: Binding, progress: MacroUpload.Progress)
    requires b.id in w.lanes
    ensures Tell(w, registry, t, Progressing(b, progress))
         == w.(lanes := w.lanes[b.id := w.lanes[b.id].(progress := progress)])
  {
  }

  lemma GivingUpIs(w: World, registry: Registry, t: Target, b: Binding, step: Step, code: ErrorCode)
    requires b.id in w.lanes
    ensures Tell(w, registry, t, GivingUp(b, step, code))
              == w.(lanes := w.lanes[b.id := Failing(w.lanes[b.id], step, code)])
  {
  }

  lemma KeepingIs(w: World, registry: Registry, t: Target, b: Binding, saved: bool)
    requires b.id in w.lanes
    ensures Tell(w, registry, t, Keeping(b, saved)) == w.(lanes := w.lanes[b.id := Persisted(w.lanes[b.id], t, saved)])
  {
  }

  /** The worlds of that story: the binding stays selected, and the lane of the first step is the loaded one. */
  lemma StepsLoseStep(w: World, b: Binding, t: Target, saved: Target)
    requires w.inventory.selection == Some(b) && Usable(w.inventory) && b.revision == w.inventory.revision
    requires w.Reloads(b.id)
    ensures var again := w.Committing(b, t, DPI).Selecting(b.id, Stored(None, None, Unreadable, Some(saved)));
            var polling := again.Committing(b, t, Polling);
            var settings := polling.Committing(b, t, Settings);
            var remap := settings.Committing(b, t, Remap);
            && w.Committing(b, t, DPI).inventory.selection == Some(b) && again.inventory.selection == Some(b)
            && polling.inventory.selection == Some(b) && settings.inventory.selection == Some(b)
            && remap.inventory.selection == Some(b) && b.id in remap.lanes
            && var l := Persisted(remap.lanes[b.id], t, true);
               l.dpi.applied == saved.dpi && l.polling.applied == t.polling && l.remap.applied == RemapOf(t)
  {
    hide RemapOf, LightingOf;
  }

  lemma NoHappening(w: World, registry: Registry, t: Target)
    ensures Told(w, registry, t, []) == w && Truthful(w, registry, t, []) && EntriesOf([]) == []
  {
  }

  /** Entries that change nothing and tell the truth. */
  lemma {:induction false} QuietEntries(
    w: World, registry: Registry, t: Target, story: seq<Happening>, entries: seq<Entry>)
    requires Truthful(w, registry, t, story)
    requires forall e | e in entries :: !e.Committed? && Honest(Told(w, registry, t, story), Logging(e))
    ensures Truthful(w, registry, t, story + Logged(entries))
    ensures Told(w, registry, t, story + Logged(entries)) == Told(w, registry, t, story)
    ensures EntriesOf(story + Logged(entries)) == EntriesOf(story) + entries
  {
    hide Told, Truthful, EntriesOf, Honest;
    if entries == [] {
      assert story + Logged(entries) == story;
    } else {
      var front, last := entries[..|entries| - 1], entries[|entries| - 1];
      QuietEntries(w, registry, t, story, front);
      assert last in entries;
      OneMoreHappening(w, registry, t, story + Logged(front), Logging(last));
      assert story + Logged(entries) == story + Logged(front) + [Logging(last)];
      assert entries == front + [last];
    }
  }

  /** A complete step of a selected device. */
  lemma StepStory(w: World, registry: Registry, t: Target, story: seq<Happening>, b: Binding, step: Step)
    requires Truthful(w, registry, t, story) && Told(w, registry, t, story).inventory.selection == Some(b)
    ensures Truthful(w, registry, t, story + Logged(Trail(step, b, 5)))
    ensures Told(w, registry, t, story + Logged(Trail(step, b, 5)))
              == Told(w, registry, t, story).Committing(b, t, step)
    ensures EntriesOf(story + Logged(Trail(step, b, 5))) == EntriesOf(story) + Trail(step, b, 5)
  {
    hide Told, Truthful, EntriesOf, World.Committing;
    var trail := Trail(step, b, 5);
    QuietEntries(w, registry, t, story, trail[..4]);
    OneMoreHappening(w, registry, t, story + Logged(trail[..4]), Logging(trail[4]));
    assert story + Logged(trail) == story + Logged(trail[..4]) + [Logging(trail[4])];
    assert trail == trail[..4] + [trail[4]];
  }

  lemma EndStory(w: World, registry: Registry, t: Target, story: seq<Happening>, b: Binding)
    requires Truthful(w, registry, t, story) && Told(w, registry, t, story).inventory.selection == Some(b)
    ensures var ending := [Filed(b, Some(b)), Activated(b, Some(b))];
            var all := story + Logged(ending) + [Keeping(b, true)];
            && Truthful(w, registry, t, all) && EntriesOf(all) == EntriesOf(story) + ending
            && Told(w, registry, t, all) == Tell(Told(w, registry, t, story), registry, t, Keeping(b, true))
  {
    hide Told, Truthful, EntriesOf, Tell;
    var ending := [Filed(b, Some(b)), Activated(b, Some(b))];
    QuietEntries(w, registry, t, story, ending);
    OneMoreHappening(w, registry, t, story + Logged(ending), Keeping(b, true));
  }

  lemma FourTrails(b: Binding)
    ensures TrailsAnd(b, |STEPS|, 2)
         == Trail(DPI, b, 5) + Trail(Polling, b, 5) + Trail(Settings, b, 5) + Trail(Remap, b, 5)
            + [Filed(b, Some(b)), Activated(b, Some(b))]
  {
    hide Trail;
    assert Trails(b, 1) == Trail(DPI, b, 5);
    assert Trails(b, 2) == Trails(b, 1) + Trail(Polling, b, 5);
    assert Trails(b, 3) == Trails(b, 2) + Trail(Settings, b, 5);
    assert Trails(b, 4) == Trails(b, 3) + Trail(Remap, b, 5);
  }

  /** How far a step has come that reports this: one that fails has sent its report or not even that. */
  predicate Reaches(code: ErrorCode, reach: nat) {
    if code == NoError then reach == 4 else 1 <= reach <= 2 && code in {StaleBinding, ApplyFailed}
  }

  const BOTH_CONFIRMED := MacroUpload.Progress(MacroUpload.AssignmentConfirmed, MacroUpload.UploadConfirmed)

  function AfterStep(
    expected: map<DeviceID, Lanes>, id: DeviceID, t: Target, step: Step, code: ErrorCode, failed: bool)
    : map<DeviceID, Lanes>
    requires id in expected
  {
    if code == NoError then expected[id := Acked(expected[id], t, step)]
    else if failed then expected[id := Failing(expected[id], step, code)]
    else expected
  }

  /** The lanes of the device after a switch that got as far as quiescing them. */
  function Outcome(l: Lanes, t: Target, done: nat, failure: Option<ErrorCode>, saved: Option<bool>): Lanes
    requires done <= |STEPS| && (failure.Some? ==> done < |STEPS|)
  {
    var reached := Completed(Quiesced(l), t, done);
    if failure.Some? then Failing(reached, STEPS[done], failure.value)
    else if saved.Some? then Persisted(reached, t, saved.value)
    else reached
  }

  /** A lane has the target's values once its step is complete; until then it keeps its own, both the
      applied and the pending one, whatever else happened. */
  lemma LanesAfter(l: Lanes, t: Target, done: nat, failure: Option<ErrorCode>, saved: Option<bool>)
    requires done <= |STEPS| && (failure.Some? ==> done < |STEPS|)
    ensures var r := Outcome(l, t, done, failure, saved);
            && (r.dpi.applied, r.dpi.pending) == (if done > 0 then (t.dpi, t.dpi) else (l.dpi.applied, l.dpi.pending))
            && (r.polling.applied, r.polling.pending)
                == (if done > 1 then (t.polling, t.polling) else (l.polling.applied, l.polling.pending))
            && r.sleep.pending == (if done > 2 then t.sleep else l.sleep.pending)
            && r.response.pending == (if done > 2 then t.response else l.response.pending)
            && (r.lighting.applied, r.lighting.pending)
                == (if done > 2 then (LightingOf(t), LightingOf(t)) else (l.lighting.applied, l.lighting.pending))
            && (r.remap.applied, r.remap.pending)
                == (if done > 3 then (RemapOf(t), RemapOf(t)) else (l.remap.applied, l.remap.pending))
  {
    hide RemapOf, LightingOf, Completed;
    StepsReport(Quiesced(l), t, done);
  }

  /** What each lane reports; the lighting goes out with the settings. A completed lane has succeeded, with no
      error until the end; the lanes of the failed step, and no others, have failed with its code; later ones
      keep their report. The end tells every lane whether it was saved, but for the lighting's persistence. */
  lemma LanesReport(l: Lanes, t: Target, done: nat, failure: Option<ErrorCode>, saved: Option<bool>)
    requires done <= 4 && (failure.Some? ==> done < 4) && (saved.Some? ==> done == 4)
    ensures var r := Outcome(l, t, done, failure, saved);
            && (forall lane | lane in [
                    (r.dpi, l.dpi, 0), (r.polling, l.polling, 1), (r.sleep, l.sleep, 2), (r.response, l.response, 2),
                    (r.lighting, l.lighting, 2), (r.remap, l.remap, 3)] ::
                  && (lane.2 < done ==>
                        && lane.0.firmware == Succeeded
                        && lane.0.error == if saved == Some(false) then PersistenceFailed else NoError)
                  && (failure.Some? && lane.2 == done ==>
                        && lane.0.firmware == Failed && lane.0.error == failure.value
                        && lane.0.persistence == lane.1.persistence)
                  && (lane.2 > done || (failure.None? && lane.2 == done) ==>
                        && lane.0.firmware == lane.1.firmware && lane.0.error == lane.1.error
                        && lane.0.persistence == lane.1.persistence))
  {
    hide RemapOf, LightingOf, Completed;
    StepsReport(Quiesced(l), t, done);
    if failure.Some? {
    } else if saved.Some? {
    }
  }

  /** What the lanes say about the disk: nothing after a completed step, and in the end whether it was saved;
      the lighting keeps what it says. */
  lemma LanesPersist(l: Lanes, t: Target, done: nat, failure: Option<ErrorCode>, saved: Option<bool>)
    requires done <= 4 && (failure.Some? ==> done < 4) && (saved.Some? ==> done == 4)
    ensures var r := Outcome(l, t, done, failure, saved);
            && r.lighting.persistence == l.lighting.persistence
            && (forall lane | lane in [(r.dpi, 0), (r.polling, 1), (r.sleep, 2), (r.response, 2), (r.remap, 3)] ::
                  lane.1 < done ==>
                    lane.0.persistence
                      == match saved case None => NotTried case Some(ok) => if ok then Saved else NotSaved)
            && r.polling.persisted == (if saved == Some(true) then Some(t.polling) else l.polling.persisted)
            && r.sleep.persisted == (if saved == Some(true) then Some(t.sleep) else l.sleep.persisted)
            && r.response.persisted == (if saved == Some(true) then Some(t.response) else l.response.persisted)
            && (forall lane | lane in [(r.dpi, l.dpi), (r.lighting, l.lighting), (r.remap, l.remap)] ::
                  lane.0.persisted == lane.1.persisted)
  {
    hide RemapOf, LightingOf, Completed;
    StepsReport(Quiesced(l), t, done);
  }

  /** Pending work is called off: no retry is left, and what was on its way in two lanes is outdated. */
  lemma LanesAreQuiet(l: Lanes, t: Target, done: nat, failure: Option<ErrorCode>, saved: Option<bool>)
    requires done <= 4 && (failure.Some? ==> done < 4) && (saved.Some? ==> done == 4)
    ensures var r := Outcome(l, t, done, failure, saved);
            && !r.dpi.retry && !r.polling.retry && !r.sleep.retry && !r.response.retry && !r.remap.retry
            && r.lighting.retry == l.lighting.retry
            && r.dpi.revision == l.dpi.revision + 1 && r.polling.revision == l.polling.revision + 1
            && r.sleep.revision == l.sleep.revision && r.response.revision == l.response.revision
            && r.lighting.revision == l.lighting.revision && r.remap.revision == l.remap.revision
            && r.progress == l.progress
  {
    hide RemapOf, LightingOf, Completed;
    StepsReport(Quiesced(l), t, done);
  }

  lemma {:induction false} StepsReport(l: Lanes, t: Target, n: nat)
    requires n <= 4
    ensures var r := Completed(l, t, n);
            && r.dpi == (if n > 0 then Confirmed(l.dpi, t.dpi) else l.dpi)
            && r.polling == (if n > 1 then Confirmed(l.polling, t.polling) else l.polling)
            && r.sleep == (if n > 2 then Confirmed(l.sleep, t.sleep) else l.sleep)
            && r.response == (if n > 2 then Confirmed(l.response, t.response) else l.response)
            && r.lighting == (if n > 2 then Confirmed(l.lighting, LightingOf(t)).(persistence := l.lighting.persistence)
                              else l.lighting)
            && r.remap == (if n > 3 then Confirmed(l.remap, RemapOf(t)) else l.remap)
            && r.progress == l.progress
  {
    hide RemapOf, LightingOf;
    if n > 0 {
      StepsReport(l, t, n - 1);
    }
  }

  lemma StagedAt(drift: Drift, actual: map<DeviceID, Lanes>, expected: map<DeviceID, Lanes>, id: DeviceID)
    requires Staged(drift, actual, expected) && id in expected
    ensures id in actual && Fits(drift, id, actual[id], expected[id])
  {
  }

  lemma StagedUpdate(
    drift: Drift, actual: map<DeviceID, Lanes>, expected: map<DeviceID, Lanes>, id: DeviceID, l: Lanes, e: Lanes)
    requires Staged(drift, actual, expected) && id in expected && Fits(drift, id, l, e)
    ensures Staged(drift, actual[id := l], expected[id := e])
  {
    hide Fits;
  }

  lemma Overwrite(lanes: map<DeviceID, Lanes>, id: DeviceID, first: Lanes, second: Lanes)
    ensures lanes[id := first][id := second] == lanes[id := second]
  {
  }

  lemma NothingStaged(lanes: map<DeviceID, Lanes>)
    ensures forall drift :: Staged(drift, lanes, lanes)
  {
  }

  lemma CommitFits(drift: Drift, id: DeviceID, actual: Lanes, expected: Lanes, t: Target, step: Step, code: ErrorCode)
    requires Fits(drift, id, actual, expected)
    ensures Fits(drift, id, Acked(actual, t, step), Acked(expected, t, step))
    ensures Fits(drift, id, Failing(actual, step, code), Failing(expected, step, code))
  {
  }

  lemma ProgressFits(drift: Drift, id: DeviceID, actual: Lanes, expected: Lanes, progress: MacroUpload.Progress)
    requires Fits(drift, id, actual, expected)
    ensures Fits(drift, id, actual.(progress := progress), expected)
  {
  }

  lemma QuiesceFits(drift: Drift, id: DeviceID, actual: Lanes, expected: Lanes)
    requires Fits(drift, id, actual, expected)
    ensures Fits(drift, id, Quiesced(actual), Quiesced(expected))
  {
  }

  lemma PersistFits(drift: Drift, id: DeviceID, actual: Lanes, expected: Lanes, t: Target, saved: bool)
    requires Fits(drift, id, actual, expected)
    ensures Fits(drift, id, Persisted(actual, t, saved), Persisted(expected, t, saved))
  {
  }

  lemma NoStep(l: Lanes, t: Target, binding: Binding)
    ensures Completed(l, t, 0) == l && Trails(binding, 0) == [] && TrailsAnd(binding, 0, 0) == []
  {
  }

  lemma NextStep(l: Lanes, t: Target, n: nat, binding: Binding, reach: nat)
    requires n < |STEPS| && reach <= 5
    ensures Completed(l, t, n + 1) == Acked(Completed(l, t, n), t, STEPS[n])
    ensures Trails(binding, n) + Trail(STEPS[n], binding, reach) == TrailsAnd(binding, n, reach)
    ensures Trails(binding, n + 1) == Trails(binding, n) + Trail(STEPS[n], binding, 5)
    ensures n + 1 == |STEPS| ==> TrailsAnd(binding, n + 1, 0) == Trails(binding, n + 1)
  {
  }

  lemma AfterSteps(binding: Binding, reach: nat)
    requires reach <= 2
    ensures TrailsAnd(binding, |STEPS|, reach)
         == Trails(binding, |STEPS|) + [Filed(binding, Some(binding)), Activated(binding, Some(binding))][..reach]
    ensures TrailsAnd(binding, |STEPS|, 0) == Trails(binding, |STEPS|)
  {
  }

  class Service {
    const inventory: TargetedService
    var lanes: map<DeviceID, Lanes>
    var loaded: set<DeviceID>
    var activeID: map<DeviceID, string>
    ghost var log: seq<Entry>
    ghost var drift: Drift

    /** What has happened since the switch to `goal` began in the world `first`, after the `earlier` entries. */
    ghost var story: seq<Happening>
    ghost var first: World
    ghost var goal: Target
    ghost var earlier: seq<Entry>

    constructor (inventory: TargetedService, lanes: map<DeviceID, Lanes>, activeID: map<DeviceID, string>)
      requires Inv(inventory.Value())
      ensures this.inventory == inventory && this.lanes == lanes && this.activeID == activeID
      ensures loaded == {} && log == [] && drift == STILL && Valid()
    {
      this.inventory, this.lanes, this.activeID := inventory, lanes, activeID;
      loaded, log, drift := {}, [], STILL;
      story, earlier, first, goal := [], [], World(inventory.Value(), lanes, {}), *;
    }

    ghost predicate Valid()
      reads this, inventory
    {
      Inv(inventory.Value()) && Chronicle(first, inventory.registry, goal, story, earlier, Now(), log)
    }

    ghost method BeginStory(read: Option<Target>)
      requires Inv(inventory.Value())
      modifies this`drift, this`story, this`first, this`goal, this`earlier
      ensures Valid() && drift == STILL && first == Now() && earlier == log
      ensures read.Some? ==> goal == read.value
    {
      hide Inv, Chronicle;
      drift, story, first, earlier := STILL, [], Now(), log;
      if read.Some? {
        goal := read.value;
      }
      NothingTold(first, inventory.registry, goal, log);
    }

    /** Adds an entry that has just been logged and changes nothing. */
    ghost method NoteEntry(entry: Entry, logged: seq<Entry>)
      requires Chronicle(first, inventory.registry, goal, story, earlier, Now(), logged)
      requires !entry.Committed? && (!entry.Answered? ==> entry.selected == inventory.selection)
      requires log == logged + [entry]
      modifies this`story
      ensures Chronicle(first, inventory.registry, goal, story, earlier, Now(), log)
    {
      hide Chronicle;
      ChronicleGrows(first, inventory.registry, goal, story, earlier, Now(), logged, Logging(entry));
      story := story + [Logging(entry)];
    }

    /** Adds what has just happened. */
    ghost method Note(h: Happening, before: World, logged: seq<Entry>)
      requires Chronicle(first, inventory.registry, goal, story, earlier, before, logged)
      requires Now() == Tell(before, inventory.registry, goal, h) && Honest(before, h)
      requires log == logged + if h.Logging? then [h.entry] else []
      modifies this`story
      ensures Chronicle(first, inventory.registry, goal, story, earlier, Now(), log)
    {
      hide Chronicle, Tell, Honest;
      ChronicleGrows(first, inventory.registry, goal, story, earlier, before, logged, h);
      story := story + [h];
    }

    ghost function Now(): World
      reads this, inventory
    {
      World(inventory.Value(), lanes, loaded)
    }

    /** Since then: no enumeration is undone, and what happened is in `drift`. */
    twostate predicate Since()
      reads this, inventory
    {
      && Valid() && old(inventory.revision) <= inventory.revision
      && Grows(old(drift), old(loaded), drift, loaded)
    }

    /** What happens in the meantime, and all that has become of the lanes expected at its start. */
    method Interfere(ghost expected: map<DeviceID, Lanes>)
      requires Valid() && Staged(drift, lanes, expected)
      modifies this`lanes, this`loaded, this`drift, this`story, inventory
      ensures Since() && Staged(drift, lanes, expected)
    {
      hide Fits, Inv, Staged, Grows, Chronicle, Tell;
      var rounds: int := *;
      GrowsNot(drift, loaded);
      for round := 0 to if rounds < 0 then 0 else rounds
        invariant Since() && Staged(drift, lanes, expected)
      {
        label Before:
        ghost var was, wasDrift, wasLoaded := lanes, drift, loaded;
        if * {
          Refresh();
        } else if * {
          var id: DeviceID, stored: Stored := *, *;
          var _ := SelectDevice(id, stored);
        } else {
          Stage();
        }
        GrowsAgain(old(drift), old(loaded), wasDrift, wasLoaded, drift, loaded);
        GrowsParts(wasDrift, wasLoaded, drift, loaded);
        StagedAgain(wasDrift, drift, expected, was, lanes);
      }
    }

    /** The user changes settings; nothing of it counts as applied. */
    method Stage()
      requires Valid()
      modifies this`lanes, this`drift, this`story
      ensures Since() && Staged(drift, lanes, old(lanes))
    {
      hide Chronicle, Tell;
      var id: DeviceID, staged: Lanes := *, *;
      ghost var before := Now();
      drift := drift.(edited := true);
      if id in lanes && AppliedOf(staged) == AppliedOf(lanes[id]) {
        lanes := lanes[id := staged];
        EditingIs(before, inventory.registry, goal, id, staged);
        Note(Editing(id, staged), before, log);
      }
    }

    /** An enumeration that may fail. */
    method Refresh()
      requires Valid()
      modifies this`lanes, this`loaded, this`drift, this`story, inventory
      ensures Since() && Staged(drift, lanes, old(lanes))
    {
      hide Fits, Staged, Grows, Restored, Chronicle, Tell, Refreshed, Inv, World.Restoring;
      GrowsNot(drift, loaded);
      NothingStaged(lanes);
      var e: Enumeration := *;
      if !e.Valid() {
        return;
      }
      ghost var before := Now();
      var _, _, _ := inventory.Refresh(Some(e));
      StepKeepsInv(before.inventory, inventory.registry, Enumerated(e));
      var added: map<DeviceID, Lanes>, profile: Option<Target> := *, *;
      lanes := added + lanes;
      MoreLanes(drift, before.lanes, lanes);
      if inventory.selection.Some? {
        ghost var next := World(Refreshed(before.inventory, inventory.registry, e), lanes, loaded);
        Restore(inventory.selection.value.id, profile);
        GrowsParts(old(drift), old(loaded), drift, loaded);
        StagedAgain(old(drift), drift, old(lanes), next.lanes, lanes);
      }
      assert Now() == before.Refreshing(inventory.registry, e, added, profile);
      EnumeratingIs(before, inventory.registry, goal, e, added, profile);
      Note(Enumerating(e, added, profile), before, log);
    }

    /** The user selects a device, of which the disk has what is `stored`. */
    method SelectDevice(id: DeviceID, stored: Stored) returns (ok: bool)
      requires Valid()
      modifies this`lanes, this`loaded, this`drift, this`story, inventory
      ensures Since() && Staged(drift, lanes, old(lanes))
      ensures Now() == old(Now()).Selecting(id, stored)
      ensures ok == old(CanSelect(inventory.Value(), id))
    {
      hide Fits, Staged, Grows, Restored, Hydrated, Chronicle, Tell;
      GrowsNot(drift, loaded);
      NothingStaged(lanes);
      ghost var before := Now();
      ChoosingIs(before, inventory.registry, goal, id, stored);
      ok := inventory.Select(id);
      StepKeepsInv(before.inventory, inventory.registry, Chosen(id));
      if !ok {
        Note(Choosing(id, stored), before, log);
        return;
      }
      if id in lanes && id !in loaded {
        lanes := lanes[id := Hydrated(lanes[id], stored)];
        drift := drift.(reselected := drift.reselected + {id}, reloaded := drift.reloaded + {id});
        LoadedNow(old(drift), loaded, id);
        StagedOne(drift, before.lanes, id, lanes[id], lanes) by {
          FitsAny(drift, id, lanes[id], before.lanes[id]);
        }
      }
      ghost var between, was := drift, lanes;
      Restore(id, stored.profile);
      GrowsAgain(old(drift), old(loaded), between, old(loaded), drift, loaded);
      GrowsParts(between, old(loaded), drift, loaded);
      StagedAgain(between, drift, old(lanes), was, lanes);
      assert Now() == before.Selecting(id, stored);
      Note(Choosing(id, stored), before, log);
    }

    /** The end of every selection reads the active profile, unless that was done before. */
    method Restore(id: DeviceID, profile: Option<Target>)
      modifies this`lanes, this`loaded, this`drift
      ensures Now() == old(Now()).Restoring(id, profile)
      ensures Grows(old(drift), old(loaded), drift, loaded)
      ensures Staged(drift, lanes, old(lanes))
    {
      hide Restored;
      drift := drift.(reselected := drift.reselected + {id});
      if id in lanes && id !in loaded && profile.Some? {
        drift := drift.(reloaded := drift.reloaded + {id});
        lanes, loaded := lanes[id := Restored(lanes[id], profile.value)], loaded + {id};
      }
    }

    method Current(binding: Binding) returns (current: bool)
      ensures current <==> inventory.selection == Some(binding)
    {
      return inventory.selection.Some? && inventory.selection.value == binding;
    }

    /** Sends one report for a binding and waits for the acknowledgement. A report that is sent was let
        through while the binding was selected. */
    method ApplyOperationBound(binding: Binding, step: Step, ghost expected: map<DeviceID, Lanes>)
      returns (code: ErrorCode, ghost sent: bool)
      requires Valid() && Staged(drift, lanes, expected)
      modifies this`lanes, this`loaded, this`drift, this`story, this`log, inventory
      ensures Since() && Staged(drift, lanes, expected)
      ensures sent ==> old(inventory.selection) == Some(binding)
      ensures (code == NoError ==> sent) && code in {NoError, StaleBinding, ApplyFailed}
      ensures code == StaleBinding ==> !sent
      ensures log == old(log) + (if sent then [Sent(step, binding, Some(binding))] else [])
                     + (if code == NoError then [Answered(step, binding)] else [])
    {
      hide Inv, Staged, Grows, Chronicle, Tell;
      GrowsNot(drift, loaded);
      sent := false;
      var selected := inventory.SelectedState();
      if selected != Some(binding) {
        return StaleBinding, sent;
      }
      if * {
        return StaleBinding, sent; // the device is not where it was
      }
      if * {
        return ApplyFailed, sent; // the value cannot be encoded
      }
      sent, log := true, log + [Sent(step, binding, inventory.selection)];
      NoteEntry(Sent(step, binding, inventory.selection), old(log));
      Interfere(expected);
      if * {
        return ApplyFailed, sent; // the write failed or no acknowledgement came
      }
      ghost var logged := log;
      log := log + [Answered(step, binding)];
      NoteEntry(Answered(step, binding), logged);
      return NoError, sent;
    }

    /** The upload of macros with the buttons; it counts only when both of its parts are confirmed. */
    method ApplyMacros(binding: Binding, ghost expected: map<DeviceID, Lanes>)
      returns (progress: MacroUpload.Progress, code: ErrorCode, ghost sent: bool)
      requires Valid() && Staged(drift, lanes, expected)
      modifies this`lanes, this`loaded, this`drift, this`story, this`log, inventory
      ensures Since() && Staged(drift, lanes, expected)
      ensures sent ==> old(inventory.selection) == Some(binding)
      ensures (code == NoError ==> sent) && code in {NoError, StaleBinding, ApplyFailed}
      ensures log == old(log) + (if sent then [Sent(Remap, binding, Some(binding))] else [])
                     + (if code == NoError && progress.assignment == MacroUpload.AssignmentConfirmed
                           && progress.upload == MacroUpload.UploadConfirmed
                        then [Answered(Remap, binding)] else [])
    {
      hide Inv, Staged, Grows, Chronicle, Tell;
      GrowsNot(drift, loaded);
      sent, progress := false, MacroUpload.Progress(MacroUpload.AssignmentNotStarted, MacroUpload.UploadNotStarted);
      var selected := inventory.SelectedState();
      if selected != Some(binding) {
        return progress, StaleBinding, sent;
      }
      if * {
        return progress, StaleBinding, sent; // the device is not where it was
      }
      if * {
        return progress, ApplyFailed, sent; // the macros are not admitted
      }
      sent, log := true, log + [Sent(Remap, binding, inventory.selection)];
      NoteEntry(Sent(Remap, binding, inventory.selection), old(log));
      Interfere(expected);
      progress := *;
      if * {
        return progress, ApplyFailed, sent;
      }
      if * {
        return progress, StaleBinding, sent; // the device moved between two reports
      }
      if progress == BOTH_CONFIRMED {
        ghost var logged := log;
        log := log + [Answered(Remap, binding)];
        NoteEntry(Answered(Remap, binding), logged);
      }
      return progress, NoError, sent;
    }

    /** Commits what a step has changed, if its binding is still selected. */
    method CompleteStep(binding: Binding, t: Target, step: Step, ghost expected: map<DeviceID, Lanes>)
      returns (code: ErrorCode)
      requires goal == t && Valid() && binding.id in expected && Staged(drift, lanes, expected)
      modifies this`lanes, this`loaded, this`drift, this`story, this`log, inventory
      ensures Since() && code in {NoError, StaleBinding}
      ensures code == NoError ==> inventory.selection == Some(binding)
      ensures log == old(log) + (if code == NoError then [Committed(step, binding, inventory.selection)] else [])
      ensures Staged(drift, lanes, AfterStep(expected, binding.id, t, step, code, false))
    {
      hide Fits, Acked, Staged, Inv, Grows, Chronicle, Tell;
      Interfere(expected);
      var current := inventory.CompleteBound(binding);
      if !current {
        return StaleBinding;
      }
      StagedAt(drift, lanes, expected, binding.id);
      CommitFits(drift, binding.id, lanes[binding.id], expected[binding.id], t, step, NoError);
      StagedUpdate(drift, lanes, expected, binding.id,
                   Acked(lanes[binding.id], t, step), Acked(expected[binding.id], t, step));
      ghost var before, logged := Now(), log;
      lanes := lanes[binding.id := Acked(lanes[binding.id], t, step)];
      log := log + [Committed(step, binding, inventory.selection)];
      CommittingIs(before, inventory.registry, goal, binding, step);
      Note(Logging(Committed(step, binding, inventory.selection)), before, logged);
      return NoError;
    }

    /** The check of the selection that begins and ends a step. */
    method Check(binding: Binding, step: Step, ghost expected: map<DeviceID, Lanes>) returns (current: bool)
      requires Valid() && Staged(drift, lanes, expected)
      modifies this`lanes, this`loaded, this`drift, this`story, this`log, inventory
      ensures Since() && Staged(drift, lanes, expected)
      ensures current <==> inventory.selection == Some(binding)
      ensures log == old(log) + (if current then [Checked(step, binding, inventory.selection)] else [])
    {
      hide Inv, Staged, Grows, Chronicle, Tell;
      Interfere(expected);
      current := Current(binding);
      if current {
        ghost var logged := log;
        log := log + [Checked(step, binding, inventory.selection)];
        NoteEntry(Checked(step, binding, inventory.selection), logged);
      }
    }

    method NoteProgress(binding: Binding, progress: MacroUpload.Progress, ghost expected: map<DeviceID, Lanes>)
      requires Valid() && binding.id in expected && Staged(drift, lanes, expected)
      modifies this`lanes, this`story
      ensures Valid() && Staged(drift, lanes, expected)
    {
      hide Fits, Staged, Inv, Chronicle, Tell;
      StagedAt(drift, lanes, expected, binding.id);
      ProgressFits(drift, binding.id, lanes[binding.id], expected[binding.id], progress);
      StagedUpdate(drift, lanes, expected, binding.id, lanes[binding.id].(progress := progress), expected[binding.id]);
      assert expected[binding.id := expected[binding.id]] == expected;
      ghost var before := Now();
      lanes := lanes[binding.id := lanes[binding.id].(progress := progress)];
      ProgressingIs(before, inventory.registry, goal, binding, progress);
      Note(Progressing(binding, progress), before, log);
    }

    /** The route of buttons with macros, after the first check of its step. */
    method SendMacros(binding: Binding, ghost expected: map<DeviceID, Lanes>)
      returns (code: ErrorCode, stale: bool, ghost reach: nat)
      requires Valid() && binding.id in expected && Staged(drift, lanes, expected)
      modifies this`lanes, this`loaded, this`drift, this`story, this`log, inventory
      ensures Since() && Staged(drift, lanes, expected)
      ensures 1 <= reach <= 4 && log == old(log) + Trail(Remap, binding, reach)[1..]
      ensures stale <==> inventory.selection != Some(binding)
      ensures !stale ==> Reaches(code, reach)
      ensures stale ==> reach <= 3
    {
      hide Fits, Staged, Inv, Grows, Chronicle, Trail;
      TrailParts(Remap, binding);
      ghost var sent;
      var progress;
      progress, code, sent := ApplyMacros(binding, expected);
      ghost var wasDrift, wasLoaded := drift, loaded;
      NoteProgress(binding, progress, expected);
      if code == NoError && progress != BOTH_CONFIRMED {
        code := ApplyFailed;
      }
      reach := if code == NoError then 3 else if sent then 2 else 1;
      Interfere(expected);
      GrowsAgain(old(drift), old(loaded), wasDrift, wasLoaded, drift, loaded);
      var current := Current(binding);
      stale := !current;
      if current && code == NoError {
        ghost var logged := log;
        log, reach := log + [Checked(Remap, binding, inventory.selection)], 4;
        NoteEntry(Checked(Remap, binding, inventory.selection), logged);
      }
    }

    /** Sends one step by the route it takes. `stale` ends the switch without a trace in the lane.
        `reach` is how much of its trail there is. */
    method SendStep(binding: Binding, t: Target, step: Step, ghost expected: map<DeviceID, Lanes>)
      returns (code: ErrorCode, stale: bool, ghost reach: nat)
      requires Valid() && binding.id in expected && Staged(drift, lanes, expected)
      modifies this`lanes, this`loaded, this`drift, this`story, this`log, inventory
      ensures Since() && Staged(drift, lanes, expected)
      ensures reach <= 4 && log == old(log) + Trail(step, binding, reach)
      ensures !stale ==> Reaches(code, reach)
      ensures code == StaleBinding && !stale ==> reach == 1 || (step == Remap && t.macros != [])
      ensures stale ==> reach <= 3
      ensures !stale && step == Remap && t.macros != [] ==> inventory.selection == Some(binding)
    {
      hide Staged, Inv, Grows, Trail, Chronicle, Tell;
      TrailParts(step, binding);
      var current := Check(binding, step, expected);
      if !current {
        return StaleBinding, true, 0;
      }
      ghost var wasDrift, wasLoaded := drift, loaded;
      if step == Remap && t.macros != [] {
        code, stale, reach := SendMacros(binding, expected);
      } else {
        ghost var sent;
        code, sent := ApplyOperationBound(binding, step, expected);
        reach, stale := if code == NoError then 3 else if sent then 2 else 1, false;
        if code == NoError {
          GrowsAgain(old(drift), old(loaded), wasDrift, wasLoaded, drift, loaded);
          wasDrift, wasLoaded := drift, loaded;
          current := Check(binding, step, expected);
          reach, stale := if current then 4 else 3, !current;
        }
      }
      GrowsAgain(old(drift), old(loaded), wasDrift, wasLoaded, drift, loaded);
    }

    /** One of the four steps. `failed` says that it ended without an acknowledgement. */
    method SwitchStep(binding: Binding, t: Target, step: Step, ghost expected: map<DeviceID, Lanes>)
      returns (code: ErrorCode, failed: bool, ghost reach: nat)
      requires goal == t && Valid() && binding.id in expected && Staged(drift, lanes, expected)
      modifies this`lanes, this`loaded, this`drift, this`story, this`log, inventory
      ensures Since()
      ensures reach <= 5 && log == old(log) + Trail(step, binding, reach)
      ensures code == NoError <==> reach == 5
      ensures code == NoError ==> inventory.selection == Some(binding)
      ensures failed ==> 1 <= reach <= 2 && code in {StaleBinding, ApplyFailed}
      ensures failed && reach == 2 && code == StaleBinding ==> step == Remap && t.macros != []
      ensures !failed && code != NoError ==> code == StaleBinding
      ensures failed && step == Remap && t.macros != [] ==> inventory.selection == Some(binding)
      ensures Staged(drift, lanes, AfterStep(expected, binding.id, t, step, code, failed))
    {
      hide Fits, Acked, Failing, Staged, Inv, Grows, Chronicle, Tell;
      var stale;
      code, stale, reach := SendStep(binding, t, step, expected);
      if stale {
        return StaleBinding, false, reach;
      }
      if code != NoError {
        StagedAt(drift, lanes, expected, binding.id);
        CommitFits(drift, binding.id, lanes[binding.id], expected[binding.id], t, step, code);
        StagedUpdate(drift, lanes, expected, binding.id,
                     Failing(lanes[binding.id], step, code), Failing(expected[binding.id], step, code));
        ghost var before := Now();
        lanes := lanes[binding.id := Failing(lanes[binding.id], step, code)];
        GivingUpIs(before, inventory.registry, goal, binding, step, code);
        Note(GivingUp(binding, step, code), before, log);
        return code, true, reach;
      }
      ghost var wasDrift, wasLoaded := drift, loaded;
      code := CompleteStep(binding, t, step, expected);
      GrowsAgain(old(drift), old(loaded), wasDrift, wasLoaded, drift, loaded);
      return code, false, if code == NoError then 5 else 4;
    }

    /** The four steps, as far as they go. */
    method SwitchSteps(b: Binding, t: Target, ghost start: map<DeviceID, Lanes>, ghost l: Lanes)
      returns (code: ErrorCode, ghost done: nat, ghost failed: bool, ghost reach: nat)
      requires goal == t && Valid() && b.id in start && Staged(drift, lanes, start[b.id := l])
      modifies this`lanes, this`loaded, this`drift, this`story, this`log, inventory
      ensures Since()
      ensures done <= |STEPS| && (code == NoError <==> done == |STEPS|)
                && (failed ==> done < |STEPS|)
      ensures failed ==> 1 <= reach <= 2 && code in {StaleBinding, ApplyFailed}
      ensures failed && reach == 2 && code == StaleBinding ==> done == 3 && t.macros != []
      ensures !failed && code != NoError ==> code == StaleBinding
      ensures Staged(drift, lanes,
                     start[b.id := if failed then Failing(Completed(l, t, done), STEPS[done], code)
                                   else Completed(l, t, done)])
      ensures reach <= (if done < |STEPS| then 4 else 0) && log == old(log) + TrailsAnd(b, done, reach)
    {
      hide Fits, Acked, Failing, Completed, Staged, Trail, Trails, TrailsAnd, Inv, Grows, Chronicle, Tell;
      done, failed, code, reach := 0, false, NoError, 0;
      ghost var expected := start[b.id := Completed(l, t, 0)];
      NoStep(l, t, b);
      GrowsNot(drift, loaded);
      for n := 0 to |STEPS|
        invariant done == n && Since()
        invariant log == old(log) + Trails(b, n) && code == NoError && !failed && reach == 0
        invariant n == |STEPS| ==> TrailsAnd(b, n, 0) == Trails(b, n)
        invariant expected == start[b.id := Completed(l, t, n)]
        invariant Staged(drift, lanes, expected)
      {
        ghost var wasDrift, wasLoaded := drift, loaded;
        var step := STEPS[n];
        code, failed, reach := SwitchStep(b, t, step, expected);
        NextStep(l, t, n, b, reach);
        GrowsAgain(old(drift), old(loaded), wasDrift, wasLoaded, drift, loaded);
        Overwrite(start, b.id, Completed(l, t, n), Failing(Completed(l, t, n), step, code));
        Overwrite(start, b.id, Completed(l, t, n), Completed(l, t, n + 1));
        assert log == old(log) + (Trails(b, n) + Trail(step, b, reach));
        if code != NoError {
          return code, done, failed, reach;
        }
        expected := start[b.id := Completed(l, t, n + 1)];
        done, reach := done + 1, 0;
      }
    }

    /** Pending work of the lanes is called off. */
    method Quiesce(b: Binding, ghost start: map<DeviceID, Lanes>)
      requires Valid() && b.id in start && Staged(drift, lanes, start) && inventory.selection == Some(b)
      modifies this`lanes, this`loaded, this`drift, this`story, this`log, inventory
      ensures Since() && log == old(log) + [Begun(b, Some(b))]
      ensures Staged(drift, lanes, start[b.id := Quiesced(start[b.id])])
    {
      hide Fits, Quiesced, Staged, Inv, Grows, Chronicle, Tell;
      log := log + [Begun(b, inventory.selection)];
      NoteEntry(Begun(b, inventory.selection), old(log));
      Interfere(start);
      StagedAt(drift, lanes, start, b.id);
      QuiesceFits(drift, b.id, lanes[b.id], start[b.id]);
      StagedUpdate(drift, lanes, start, b.id, Quiesced(lanes[b.id]), Quiesced(start[b.id]));
      ghost var before := Now();
      lanes := lanes[b.id := Quiesced(lanes[b.id])];
      QuietingIs(before, inventory.registry, goal, b);
      Note(Quieting(b), before, log);
    }

    /** Quiesces the lanes, takes the steps and, if all of them are committed, moves the pointer. */
    method RunSwitch(b: Binding, id: string, t: Target, ghost start: map<DeviceID, Lanes>)
      returns (code: ErrorCode, ghost done: nat, ghost failed: bool, ghost reach: nat, ghost saved: Option<bool>)
      requires goal == t && Valid() && b.id in start && Staged(drift, lanes, start) && inventory.selection == Some(b)
      modifies this`lanes, this`loaded, this`drift, this`story, this`log, this`activeID, inventory
      ensures Since()
      ensures done <= |STEPS| && (failed ==> done < |STEPS|) && (saved.Some? ==> done == |STEPS|)
      ensures reach <= if done < |STEPS| then 4 else 2
      ensures log == old(log) + [Begun(b, Some(b))] + TrailsAnd(b, done, reach)
      ensures failed ==> 1 <= reach <= 2 && code in {StaleBinding, ApplyFailed}
      ensures failed && reach == 2 && code == StaleBinding ==> done == 3 && t.macros != []
      ensures !failed ==> code == match saved case None => StaleBinding
                                                case Some(kept) => if kept then NoError else PersistenceFailed
      ensures saved.Some? ==> 1 <= reach && inventory.selection == Some(b)
      ensures activeID != old(activeID) || code == NoError ==>
                saved.Some? && reach == 2 && activeID == old(activeID)[b.id := id]
      ensures Staged(drift, lanes,
                     start[b.id := Outcome(start[b.id], t, done, if failed then Some(code) else None, saved)])
    {
      hide Fits, Acked, Failing, Completed, Quiesced, Persisted, Staged, Trail, Trails, TrailsAnd, Inv, Grows,
        Chronicle, Tell;
      Quiesce(b, start);
      ghost var wasDrift, wasLoaded := drift, loaded;
      ghost var l := Quiesced(start[b.id]);
      code, done, failed, reach := SwitchSteps(b, t, start, l);
      GrowsAgain(old(drift), old(loaded), wasDrift, wasLoaded, drift, loaded);
      saved := None;
      if code != NoError {
        return;
      }
      wasDrift, wasLoaded := drift, loaded;
      ghost var reached := Completed(l, t, |STEPS|);
      AfterSteps(b, 0);
      assert log == old(log) + [Begun(b, Some(b))] + Trails(b, |STEPS|);
      code, saved, reach := CommitSwitch(b, id, t, start[b.id := reached]);
      AfterSteps(b, reach);
      GrowsAgain(old(drift), old(loaded), wasDrift, wasLoaded, drift, loaded);
      if saved.Some? {
        Overwrite(start, b.id, reached, Persisted(reached, t, saved.value));
      }
    }

    /** `done` of the steps were committed. Then the switch failed in the next one, or it went stale, or
        the pointer was to be moved and `saved` says how that ended. */
    method SwitchProfile(id: string, read: Option<Target>)
      returns (code: ErrorCode, applied: bool,
               ghost done: nat, ghost failed: bool, ghost reach: nat, ghost saved: Option<bool>)
      requires Valid()
      requires inventory.selection.Some? ==> inventory.selection.value.id in lanes
      modifies this, inventory
      ensures Valid()
      ensures done <= |STEPS| && (failed ==> done < |STEPS|) && (saved.Some? ==> done == |STEPS|)
      ensures applied <==> code == NoError
      ensures applied <==> saved == Some(true)
      // The world is that of the story, whose every entry is in the log and tells what was selected.
      ensures read.Some? ==> goal == read.value
      ensures first == old(Now()) && earlier == old(log)
      ensures Chronicle(first, inventory.registry, goal, story, earlier, Now(), log)
      // Why it failed: a selection that changed, a report that was not let through or not acknowledged, or
      // a pointer that was not saved.
      ensures old(inventory.selection).None? ==> code == SelectionRequired
      ensures old(inventory.selection).Some? && read.None? ==> code == ProfileUnavailable
      ensures failed ==> 1 <= reach <= 2 && code in {StaleBinding, ApplyFailed}
      ensures failed && reach == 2 && code == StaleBinding ==> read.Some? && done == 3 && read.value.macros != []
      ensures old(inventory.selection).Some? && read.Some? && !failed ==>
                code == if saved.None? then StaleBinding else if saved.value then NoError else PersistenceFailed
      // Nothing to do without a selected device and a readable profile.
      ensures old(inventory.selection).None? || read.None? ==>
                !applied && done == 0 && log == old(log) && activeID == old(activeID)
                  && Staged(drift, lanes, old(lanes))
      // Otherwise every lane is exactly where the completed steps have brought it, and no other device is
      // touched. Whatever was done was done in this order, for the captured binding and while it was
      // selected: the steps before one that is committed were committed, one that is committed was
      // acknowledged and one that was acknowledged was sent.
      ensures old(inventory.selection).Some? && read.Some? ==>
                var b := old(inventory.selection).value;
                || (code == StaleBinding && done == 0 && log == old(log) && Staged(drift, lanes, old(lanes)))
                || (&& reach <= (if done < |STEPS| then 4 else 2)
                    && log == old(log) + [Begun(b, Some(b))] + TrailsAnd(b, done, reach)
                    && Staged(drift, lanes,
                              old(lanes)[b.id := Outcome(old(lanes)[b.id], read.value, done,
                                                         if failed then Some(code) else None, saved)]))
      // What is not known is only what became of a device that was not loaded and was selected meanwhile.
      ensures drift.reloaded !! old(loaded) && drift.reloaded <= drift.reselected && old(loaded) <= loaded
      // The pointer moves only after all steps, and the device must still be selected then, with no
      // enumeration since. An error may hide that it moved.
      ensures saved.Some? ==> done == |STEPS| && 1 <= reach && inventory.selection == old(inventory.selection)
      ensures activeID != old(activeID) || applied ==>
                && saved.Some? && done == |STEPS| && reach == 2
                && old(inventory.selection).Some? && inventory.selection == old(inventory.selection)
                && inventory.revision == old(inventory.revision)
                && activeID == old(activeID)[inventory.selection.value.id := id]
    {
      hide Outcome, Staged, TrailsAnd, Inv, Grows, Chronicle;
      ghost var start, before := lanes, loaded;
      BeginStory(read);
      NothingStaged(lanes);
      GrowsNot(drift, loaded);
      NothingReloaded(drift, loaded, drift, loaded);
      if inventory.selection.None? {
        return SelectionRequired, false, 0, false, 0, None;
      }
      var b := inventory.selection.value;
      SelectionIsCurrent(inventory.Value(), b);
      Interfere(start);
      NothingReloaded(STILL, before, drift, loaded);
      if read.None? {
        return ProfileUnavailable, false, 0, false, 0, None;
      }
      var current := Current(b);
      if !current {
        return StaleBinding, false, 0, false, 0, None;
      }
      ghost var wasDrift, wasLoaded := drift, loaded;
      code, done, failed, reach, saved := RunSwitch(b, id, read.value, start);
      GrowsAgain(STILL, before, wasDrift, wasLoaded, drift, loaded);
      NothingReloaded(STILL, before, drift, loaded);
      applied := code == NoError;
      SelectionIsCurrent(inventory.Value(), b);
    }

    /** The last critical section: the store moves its pointer and the lanes learn how that ended. */
    method CommitSwitch(b: Binding, id: string, t: Target, ghost expected: map<DeviceID, Lanes>)
      returns (code: ErrorCode, saved: Option<bool>, ghost reach: nat)
      requires goal == t && Valid() && b.id in expected && Staged(drift, lanes, expected)
      modifies this`lanes, this`loaded, this`drift, this`story, this`log, this`activeID, inventory
      ensures Since()
      ensures reach <= 2 && log == old(log) + [Filed(b, Some(b)), Activated(b, Some(b))][..reach]
      ensures (saved.Some? ==> 1 <= reach) && (reach == 2 ==> saved.Some?)
      ensures activeID != old(activeID) || code == NoError ==> reach == 2
      ensures code == match saved case None => StaleBinding
                                     case Some(kept) => if kept then NoError else PersistenceFailed
      ensures saved == None ==> activeID == old(activeID)
      ensures saved.Some? ==> inventory.selection == Some(b)
      ensures activeID == old(activeID) || activeID == old(activeID)[b.id := id]
      ensures code == NoError ==> activeID == old(activeID)[b.id := id]
      ensures Staged(drift, lanes,
                     if saved.Some? then expected[b.id := Persisted(expected[b.id], t, saved.value)] else expected)
    {
      hide Fits, Persisted, Staged, Inv, Grows, Chronicle, Tell;
      Interfere(expected);
      ghost var wasDrift, wasLoaded := drift, loaded;
      var current := Current(b);
      if !current {
        return StaleBinding, None, 0;
      }
      ghost var logged := log;
      log, reach := log + [Filed(b, inventory.selection)], 1;
      NoteEntry(Filed(b, inventory.selection), logged);
      var ok: bool := *; // whether the device configuration was saved
      Interfere(expected);
      GrowsAgain(old(drift), old(loaded), wasDrift, wasLoaded, drift, loaded);
      wasDrift, wasLoaded := drift, loaded;
      code, saved, reach := Activate(b, id, t, ok, expected);
      GrowsAgain(old(drift), old(loaded), wasDrift, wasLoaded, drift, loaded);
      reach := 1 + reach;
    }

    /** What is done while nobody else can select. `ok` says whether the device's configuration was saved. */
    method Activate(b: Binding, id: string, t: Target, ok: bool, ghost expected: map<DeviceID, Lanes>)
      returns (code: ErrorCode, saved: Option<bool>, ghost reach: nat)
      requires goal == t && Valid() && b.id in expected && Staged(drift, lanes, expected)
      modifies this`lanes, this`story, this`log, this`activeID
      ensures Since() && drift == old(drift) && loaded == old(loaded)
      ensures reach <= 1 && log == old(log) + [Activated(b, Some(b))][..reach]
      ensures reach == 1 ==> saved.Some?
      ensures activeID != old(activeID) || code == NoError ==> reach == 1
      ensures code == match saved case None => StaleBinding
                                     case Some(kept) => if kept then NoError else PersistenceFailed
      ensures saved == None ==> activeID == old(activeID)
      ensures saved.Some? ==> inventory.selection == Some(b)
      ensures activeID == old(activeID) || activeID == old(activeID)[b.id := id]
      ensures code == NoError ==> activeID == old(activeID)[b.id := id]
      ensures Staged(drift, lanes,
                     if saved.Some? then expected[b.id := Persisted(expected[b.id], t, saved.value)] else expected)
    {
      hide Fits, Persisted, Staged, Inv, Chronicle, Tell;
      reach := 0;
      var current := inventory.CompleteBound(b);
      if !current {
        return StaleBinding, None, reach;
      }
      var kept := ok;
      if kept {
        log, reach := log + [Activated(b, inventory.selection)], 1;
        NoteEntry(Activated(b, inventory.selection), old(log));
        kept := SwitchActive(b.id, id);
      }
      StagedAt(drift, lanes, expected, b.id);
      PersistFits(drift, b.id, lanes[b.id], expected[b.id], t, kept);
      StagedUpdate(drift, lanes, expected, b.id, Persisted(lanes[b.id], t, kept), Persisted(expected[b.id], t, kept));
      ghost var before := Now();
      lanes := lanes[b.id := Persisted(lanes[b.id], t, kept)];
      KeepingIs(before, inventory.registry, goal, b, kept);
      Note(Keeping(b, kept), before, log);
      return if kept then NoError else PersistenceFailed, Some(kept), reach;
    }

    /** The store may report an error after it has published the new pointer. */
    method SwitchActive(device: DeviceID, id: string) returns (ok: bool)
      modifies this`activeID
      ensures activeID == old(activeID) || activeID == old(activeID)[device := id]
      ensures ok ==> activeID == old(activeID)[device := id]
    {
      if * {
        return false;
      }
      activeID := activeID[device := id];
      ok := *;
    }
  }

  lemma TrailParts(step: Step, b: Binding)
    ensures var checked, sent, answered := Checked(step, b, Some(b)), Sent(step, b, Some(b)), Answered(step, b);
            && Trail(step, b, 0) == [] && Trail(step, b, 1) == [checked] && Trail(step, b, 2) == [checked, sent]
            && Trail(step, b, 3) == [checked, sent, answered] && Trail(step, b, 4) == [checked, sent, answered, checked]
            && Trail(step, b, 5) == [checked, sent, answered, checked, Committed(step, b, Some(b))]
  {
  }

  lemma SelectionIsCurrent(s: Inventory, b: Binding)
    requires Inv(s)
    ensures s.selection == Some(b) ==> b.revision == s.revision
  {
  }

  lemma GrowsNot(drift: Drift, loaded: set<DeviceID>)
    ensures Grows(drift, loaded, drift, loaded)
  {
  }

  lemma NothingReloaded(first: Drift, loaded: set<DeviceID>, second: Drift, loadedNow: set<DeviceID>)
    requires Grows(first, loaded, second, loadedNow) && first.reloaded == {}
    ensures second.reloaded !! loaded && second.reloaded <= second.reselected && loaded <= loadedNow
  {
    assert second.reloaded - first.reloaded == second.reloaded;
  }

  lemma GrowsParts(first: Drift, loaded: set<DeviceID>, second: Drift, loadedNow: set<DeviceID>)
    requires Grows(first, loaded, second, loadedNow)
    ensures (first.edited ==> second.edited) && first.reloaded <= second.reloaded
  {
  }

  lemma LoadedNow(drift: Drift, loaded: set<DeviceID>, id: DeviceID)
    requires id !in loaded
    ensures var now := drift.(reselected := drift.reselected + {id}, reloaded := drift.reloaded + {id});
            Grows(drift, loaded, now, loaded)
  {
  }

  lemma FitsAny(drift: Drift, id: DeviceID, actual: Lanes, expected: Lanes)
    requires id in drift.reloaded
    ensures Fits(drift, id, actual, expected)
  {
  }

  lemma MoreLanes(drift: Drift, lanes: map<DeviceID, Lanes>, more: map<DeviceID, Lanes>)
    requires forall id | id in lanes :: id in more && more[id] == lanes[id]
    ensures Staged(drift, more, lanes)
  {
  }
}
