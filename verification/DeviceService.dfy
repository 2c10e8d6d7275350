/** The inventory of devices and the selected one (internal/mouse/service.go).

    A candidate that was found is eligible when it is supported, its identity can be trusted and
    no other such candidate has the same identity. Operations capture the binding of the selected
    device; a binding lives no longer than the inventory it was taken from. */
module DeviceService {
  import opened Text

  datatype DeviceID = DeviceID(vendor: nat, product: nat, serial: string)

  datatype Candidate = Candidate(id: DeviceID, path: string)

  datatype Profile = Profile(id: string, serialless: bool)

  type Registry = map<(nat, nat), Profile>

  datatype Warning = NoWarning | UnsupportedProfile | ProfileMismatch | AmbiguousWarning

  datatype Device = Device(id: DeviceID, profile: string, path: string, eligible: bool, warning: Warning)

  /** The exact connection an operation is for. */
  datatype Binding = Binding(id: DeviceID, profile: string, path: string, revision: nat)

  function BindingOf(device: Device, revision: nat): Binding {
    Binding(device.id, device.profile, device.path, revision)
  }

  predicate Found(registry: Registry, id: DeviceID) {
    (id.vendor, id.product) in registry
  }

  predicate Trusted(registry: Registry, id: DeviceID)
    requires Found(registry, id)
  {
    && id.vendor != 0 && id.product != 0
    && (id.serial != "" || registry[(id.vendor, id.product)].serialless)
  }

  /** What one enumeration found. The validator is asked about every candidate twice, and
      `first` and `second` are its answers. */
  datatype Enumeration = Enumeration(candidates: seq<Candidate>, first: seq<bool>, second: seq<bool>) {
    predicate Valid() {
      |candidates| == |first| == |second|
    }

    predicate Counts(registry: Registry, i: nat)
      requires Valid() && i < |candidates|
    {
      Found(registry, candidates[i].id) && Trusted(registry, candidates[i].id) && first[i]
    }
  }

  /** How many of the first `n` candidates have an identity. */
  function Count(registry: Registry, e: Enumeration, n: nat, id: DeviceID): nat
    requires e.Valid() && n <= |e.candidates|
  {
    if n == 0 then 0
    else Count(registry, e, n - 1, id) + (if e.candidates[n - 1].id == id && e.Counts(registry, n - 1) then 1 else 0)
  }

  function Classified(registry: Registry, e: Enumeration, i: nat): (device: Device)
    requires e.Valid() && i < |e.candidates|
    ensures device.id == e.candidates[i].id && device.path == e.candidates[i].path
    ensures device.eligible <==> device.warning == NoWarning
  {
    var c := e.candidates[i];
    if !Found(registry, c.id) then Device(c.id, "", c.path, false, UnsupportedProfile)
    else
      var profile := registry[(c.id.vendor, c.id.product)].id;
      if !e.second[i] then Device(c.id, profile, c.path, false, ProfileMismatch)
      else if !Trusted(registry, c.id) || Count(registry, e, |e.candidates|, c.id) != 1 then
        Device(c.id, profile, c.path, false, AmbiguousWarning)
      else Device(c.id, profile, c.path, true, NoWarning)
  }

  function ClassifiedAll(registry: Registry, e: Enumeration): (devices: seq<Device>)
    requires e.Valid()
    ensures |devices| == |e.candidates|
  {
    seq(|e.candidates|, i requires 0 <= i < |e.candidates| => Classified(registry, e, i))
  }

  /** A device replaces an earlier one with the same identity. */
  function Latest(devices: seq<Device>): (latest: map<DeviceID, Device>)
    ensures forall id | id in latest :: latest[id] in devices && latest[id].id == id
  {
    if devices == [] then map[]
    else
      var last := devices[|devices| - 1];
      Latest(devices[..|devices| - 1])[last.id := last]
  }

  function EligibleOf(devices: seq<Device>): (eligible: seq<Device>)
    ensures forall d :: d in eligible <==> d in devices && d.eligible
  {
    if devices == [] then []
    else
      var last := devices[|devices| - 1];
      EligibleOf(devices[..|devices| - 1]) + (if last.eligible then [last] else [])
  }

  /** Several candidates share an identity without a serial number. */
  predicate Ambiguous(registry: Registry, e: Enumeration, n: nat)
    requires e.Valid() && n <= |e.candidates|
  {
    exists i | 0 <= i < n ::
      && Classified(registry, e, i).warning == AmbiguousWarning
      && Trusted(registry, e.candidates[i].id) && e.candidates[i].id.serial == ""
  }

  // ------------------------------------------------------------------ the inventory as a value

  /** `result` is what the last successful enumeration returned. */
  datatype Inventory = Inventory(
    revision: nat, result: seq<Device>, devices: map<DeviceID, Device>, known: set<DeviceID>,
    selection: Option<Binding>)

  const EMPTY := Inventory(0, [], map[], {}, None)

  function IDsOf(devices: seq<Device>): set<DeviceID> {
    set d | d in devices :: d.id
  }

  function Refreshed(s: Inventory, registry: Registry, e: Enumeration): Inventory
    requires e.Valid()
  {
    var result := ClassifiedAll(registry, e);
    var eligible := EligibleOf(result);
    Inventory(s.revision + 1, result, Latest(result), s.known + IDsOf(eligible),
              if |eligible| == 1 then Some(BindingOf(eligible[0], s.revision + 1)) else None)
  }

  predicate CanSelect(s: Inventory, id: DeviceID) {
    id in s.devices && s.devices[id].eligible
  }

  function Selected(s: Inventory, id: DeviceID): Inventory {
    if CanSelect(s, id) then s.(selection := Some(BindingOf(s.devices[id], s.revision))) else s
  }

  /** The selected binding is the one its identity stands for, so that operations may use it. */
  predicate Usable(s: Inventory) {
    && s.selection.Some?
    && CanSelect(s, s.selection.value.id)
    && BindingOf(s.devices[s.selection.value.id], s.selection.value.revision) == s.selection.value
  }

  lemma NothingListed(registry: Registry, e: Enumeration)
    requires e.Valid()
    ensures Latest([]) == map[] && EligibleOf([]) == [] && IDsOf([]) == {} && !Ambiguous(registry, e, 0)
  {
  }

  lemma OneMoreDevice(devices: seq<Device>, last: Device)
    ensures Latest(devices + [last]) == Latest(devices)[last.id := last]
    ensures EligibleOf(devices + [last]) == EligibleOf(devices) + (if last.eligible then [last] else [])
    ensures IDsOf(EligibleOf(devices) + [last]) == IDsOf(EligibleOf(devices)) + {last.id}
  {
    hide EligibleOf, Latest;
    assert (devices + [last])[..|devices|] == devices;
    UnfoldLast(devices + [last]);
    var eligible := EligibleOf(devices);
    assert forall d :: d in eligible + [last] <==> d in eligible || d == last;
  }

  lemma UnfoldLast(devices: seq<Device>)
    requires devices != []
    ensures var last, front := devices[|devices| - 1], devices[..|devices| - 1];
            && Latest(devices) == Latest(front)[last.id := last]
            && EligibleOf(devices) == EligibleOf(front) + (if last.eligible then [last] else [])
  {
  }

  lemma OneMoreAmbiguous(registry: Registry, e: Enumeration, i: nat)
    requires e.Valid() && i < |e.candidates|
    ensures Ambiguous(registry, e, i + 1) <==>
              || Ambiguous(registry, e, i)
              || (Classified(registry, e, i).warning == AmbiguousWarning
                  && Trusted(registry, e.candidates[i].id) && e.candidates[i].id.serial == "")
  {
    hide Trusted, Count;
  }

  class TargetedService {
    const registry: Registry
    var revision: nat
    var devices: map<DeviceID, Device>
    var states: set<DeviceID>
    var selection: Option<Binding>
    ghost var result: seq<Device>

    constructor (registry: Registry)
      ensures this.registry == registry && Value() == EMPTY
    {
      this.registry := registry;
      revision, devices, states, selection, result := 0, map[], {}, None, [];
    }

    ghost function Value(): Inventory
      reads this
    {
      Inventory(revision, result, devices, states, selection)
    }

    /** Nothing changes when the enumeration fails. */
    method Refresh(found: Option<Enumeration>) returns (listed: seq<Device>, failed: bool, ambiguous: bool)
      requires found.Some? ==> found.value.Valid()
      modifies this
      ensures failed <==> found.None?
      ensures failed ==> Value() == old(Value()) && listed == []
      ensures !failed ==> Value() == Refreshed(old(Value()), registry, found.value)
      ensures !failed ==> listed == ClassifiedAll(registry, found.value)
      // A device is selected exactly when one candidate alone is eligible, and then it is that one.
      ensures !failed ==> SelectsAlone(registry, found.value, selection, revision)
      ensures ambiguous <==> !failed && Ambiguous(registry, found.value, |found.value.candidates|)
    {
      hide Found, Trusted, Count, Latest, EligibleOf, IDsOf, Ambiguous, Classified, SelectsAlone;
      if found.None? {
        return [], true, false;
      }
      var e := found.value;
      var counts := CountIdentities(e);
      revision, devices := revision + 1, map[];
      listed, ambiguous := [], false;
      var eligible := [];
      NothingListed(registry, e);
      for i := 0 to |e.candidates|
        invariant listed == ClassifiedAll(registry, e)[..i]
        invariant devices == Latest(listed) && eligible == EligibleOf(listed)
        invariant states == old(states) + IDsOf(eligible)
        invariant ambiguous == Ambiguous(registry, e, i)
        invariant revision == old(revision) + 1 && selection == old(selection)
      {
        var device, sharesNoSerial := Classify(e, counts, i);
        OneMoreDevice(listed, device);
        OneMoreAmbiguous(registry, e, i);
        listed := listed + [device];
        if device.eligible {
          eligible := eligible + [device];
          states := states + {device.id};
        }
        devices := devices[device.id := device];
        ambiguous := ambiguous || sharesNoSerial;
      }
      assert listed == ClassifiedAll(registry, e);
      result := listed;
      if |eligible| == 1 {
        selection := Some(BindingOf(eligible[0], revision));
      } else {
        selection := None;
      }
      SelectionIs(old(Value()), registry, e);
      return listed, false, ambiguous;
    }

    method CountIdentities(e: Enumeration) returns (counts: map<DeviceID, nat>)
      requires e.Valid()
      ensures forall id :: Count(registry, e, |e.candidates|, id) == if id in counts then counts[id] else 0
    {
      counts := map[];
      for i := 0 to |e.candidates|
        invariant forall id :: Count(registry, e, i, id) == if id in counts then counts[id] else 0
      {
        var id := e.candidates[i].id;
        if Found(registry, id) && Trusted(registry, id) && e.first[i] {
          counts := counts[id := (if id in counts then counts[id] else 0) + 1];
        }
      }
    }

    method Classify(e: Enumeration, counts: map<DeviceID, nat>, i: nat) returns (device: Device, sharesNoSerial: bool)
      requires e.Valid() && i < |e.candidates|
      requires forall id :: Count(registry, e, |e.candidates|, id) == if id in counts then counts[id] else 0
      ensures device == Classified(registry, e, i)
      ensures sharesNoSerial <==>
                && device.warning == AmbiguousWarning
                && Trusted(registry, e.candidates[i].id) && e.candidates[i].id.serial == ""
    {
      var c := e.candidates[i];
      device, sharesNoSerial := Device(c.id, "", c.path, false, NoWarning), false;
      if !Found(registry, c.id) {
        device := device.(warning := UnsupportedProfile);
      } else {
        device := device.(profile := registry[(c.id.vendor, c.id.product)].id);
        if !e.second[i] {
          device := device.(warning := ProfileMismatch);
        } else if !Trusted(registry, c.id) {
          device := device.(warning := AmbiguousWarning);
        } else if c.id !in counts || counts[c.id] != 1 {
          device := device.(warning := AmbiguousWarning);
          sharesNoSerial := c.id.serial == "";
        } else {
          device := device.(eligible := true);
        }
      }
    }

    method Select(id: DeviceID) returns (ok: bool)
      modifies this
      ensures ok == CanSelect(old(Value()), id)
      ensures Value() == Selected(old(Value()), id)
      ensures ok <==> id in devices && devices[id].eligible
      ensures ok ==> selection == Some(Binding(devices[id].id, devices[id].profile, devices[id].path, revision))
      ensures Value() == old(Value()).(selection := if ok then selection else old(selection))
    {
      if id !in devices || !devices[id].eligible {
        return false;
      }
      selection := Some(BindingOf(devices[id], revision));
      return true;
    }

    /** Whether a completion may be committed now. The caller commits while it keeps the mutex. */
    method CompleteBound(binding: Binding) returns (current: bool)
      ensures current <==> selection == Some(binding)
    {
      return selection.Some? && selection.value == binding;
    }

    method SelectedState() returns (binding: Option<Binding>)
      ensures binding.Some? <==> Usable(Value()) && Found(registry, selection.value.id)
      ensures binding.Some? ==>
                && binding == selection
                && var b := selection.value;
                   && b.id in devices && devices[b.id] == Device(b.id, b.profile, b.path, true, devices[b.id].warning)
                   && (b.id.vendor, b.id.product) in registry
    {
      if selection.None? {
        return None;
      }
      var b := selection.value;
      if b.id !in devices || !devices[b.id].eligible || devices[b.id].id != b.id || devices[b.id].path != b.path
         || devices[b.id].profile != b.profile
      {
        return None;
      }
      return if Found(registry, b.id) then Some(b) else None;
    }
  }

  // ------------------------------------------------------------------ who is eligible

  lemma {:induction false} CountOf(registry: Registry, e: Enumeration, n: nat, id: DeviceID, i: nat)
    requires e.Valid() && i < n <= |e.candidates| && e.candidates[i].id == id && e.Counts(registry, i)
    ensures Count(registry, e, n, id) >= 1
    ensures Count(registry, e, n, id) == 1 <==>
              forall j | 0 <= j < n && j != i :: !(e.candidates[j].id == id && e.Counts(registry, j))
  {
    if i < n - 1 {
      CountOf(registry, e, n - 1, id, i);
    } else {
      CountNone(registry, e, n - 1, id);
    }
  }

  lemma {:induction false} CountNone(registry: Registry, e: Enumeration, n: nat, id: DeviceID)
    requires e.Valid() && n <= |e.candidates|
    ensures Count(registry, e, n, id) == 0 <==>
              forall j | 0 <= j < n :: !(e.candidates[j].id == id && e.Counts(registry, j))
  {
    if n > 0 {
      CountNone(registry, e, n - 1, id);
    }
  }

  /** When the validator answers the same twice, a candidate is eligible exactly when it passes every
      test and no other candidate that does has its identity. */
  lemma EligibleIff(registry: Registry, e: Enumeration, i: nat)
    requires e.Valid() && e.first == e.second && i < |e.candidates|
    ensures Classified(registry, e, i).eligible <==>
              && e.Counts(registry, i)
              && forall j | 0 <= j < |e.candidates| && j != i && e.Counts(registry, j) ::
                   e.candidates[j].id != e.candidates[i].id
  {
    if e.Counts(registry, i) {
      CountOf(registry, e, |e.candidates|, e.candidates[i].id, i);
    }
  }

  /** Candidate `k` alone passes the first test for an identity. */
  predicate AloneFirst(e: Enumeration, id: DeviceID, k: nat)
    requires e.Valid() && k < |e.candidates|
  {
    && e.candidates[k].id == id && e.first[k]
    && forall m | 0 <= m < |e.candidates| && m != k && e.candidates[m].id == id :: !e.first[m]
  }

  /** Which candidates are eligible, and what keeps the others out, in terms of the registry and of the
      validator's answers: one that has a profile and passes the second time is eligible exactly if its
      identity can be trusted and one candidate alone with that identity passed the first time. */
  lemma ClassificationIs(registry: Registry, e: Enumeration, i: nat)
    requires e.Valid() && i < |e.candidates|
    ensures var id, d := e.candidates[i].id, Classified(registry, e, i); var model := (id.vendor, id.product);
            && d.id == id && d.path == e.candidates[i].path
            && (model in registry ==> d.profile == registry[model].id)
            && (model !in registry ==> !d.eligible && d.warning == UnsupportedProfile)
            && (model in registry && !e.second[i] ==> !d.eligible && d.warning == ProfileMismatch)
            && (model in registry && e.second[i] ==>
                  && (d.eligible <==>
                        && id.vendor != 0 && id.product != 0 && (id.serial != "" || registry[model].serialless)
                        && exists k | 0 <= k < |e.candidates| && e.candidates[k].id == id && e.first[k] ::
                             forall m | 0 <= m < |e.candidates| && m != k && e.candidates[m].id == id :: !e.first[m])
                  && d.warning == if d.eligible then NoWarning else AmbiguousWarning)
  {
    var id := e.candidates[i].id;
    if Found(registry, id) && Trusted(registry, id) {
      CountIsOne(registry, e, id);
      assert forall k | 0 <= k < |e.candidates| ::
          AloneFirst(e, id, k) <==>
            && e.candidates[k].id == id && e.first[k]
            && forall m | 0 <= m < |e.candidates| && m != k && e.candidates[m].id == id :: !e.first[m];
    }
  }

  lemma {:induction false} NoneEligible(registry: Registry, e: Enumeration, n: nat)
    requires e.Valid() && n <= |e.candidates|
    ensures EligibleOf(ClassifiedAll(registry, e)[..n]) == [] <==>
              forall i | 0 <= i < n :: !Classified(registry, e, i).eligible
  {
    hide Classified, EligibleOf, Latest;
    if n == 0 {
      NothingListed(registry, e);
    } else {
      var devices := ClassifiedAll(registry, e)[..n];
      NoneEligible(registry, e, n - 1);
      UnfoldLast(devices);
      assert devices[..n - 1] == ClassifiedAll(registry, e)[..n - 1];
      assert devices[n - 1] == Classified(registry, e, n - 1);
    }
  }

  lemma {:induction false} OneEligible(registry: Registry, e: Enumeration, n: nat, i: nat)
    requires e.Valid() && i < n <= |e.candidates| && Classified(registry, e, i).eligible
    ensures var eligible := EligibleOf(ClassifiedAll(registry, e)[..n]);
            if forall j | 0 <= j < n && j != i :: !Classified(registry, e, j).eligible
            then eligible == [Classified(registry, e, i)]
            else |eligible| > 1
  {
    hide Classified, EligibleOf, Latest;
    var devices := ClassifiedAll(registry, e)[..n];
    UnfoldLast(devices);
    assert devices[n - 1] == Classified(registry, e, n - 1);
    assert devices[..n - 1] == ClassifiedAll(registry, e)[..n - 1];
    NoneEligible(registry, e, n - 1);
    if i < n - 1 {
      OneEligible(registry, e, n - 1, i);
    }
  }

  /** A device is selected exactly if one candidate alone is eligible, and it is that one, under the new revision. */
  lemma SelectedAlone(s: Inventory, registry: Registry, e: Enumeration, i: nat)
    requires e.Valid() && i < |e.candidates| && Classified(registry, e, i).eligible
    ensures var next := Refreshed(s, registry, e); var c := e.candidates[i];
            if forall j | 0 <= j < |e.candidates| && j != i :: !Classified(registry, e, j).eligible
            then next.selection == Some(Binding(c.id, registry[(c.id.vendor, c.id.product)].id, c.path, s.revision + 1))
            else next.selection == None
    ensures Refreshed(s, registry, e).revision == s.revision + 1
  {
    hide EligibleOf;
    var devices := ClassifiedAll(registry, e);
    assert devices[..|devices|] == devices;
    OneEligible(registry, e, |devices|, i);
  }

  /** What is selected after an enumeration. */
  ghost predicate SelectsAlone(registry: Registry, e: Enumeration, selection: Option<Binding>, revision: nat)
    requires e.Valid()
  {
    && (selection.Some? ==> exists i | 0 <= i < |e.candidates| :: Classified(registry, e, i).eligible)
    && forall i | 0 <= i < |e.candidates| && Classified(registry, e, i).eligible ::
         var d := Classified(registry, e, i);
         selection == if forall j | 0 <= j < |e.candidates| && j != i :: !Classified(registry, e, j).eligible
                      then Some(Binding(d.id, d.profile, d.path, revision)) else None
  }

  lemma SelectionIs(s: Inventory, registry: Registry, e: Enumeration)
    requires e.Valid()
    ensures SelectsAlone(registry, e, Refreshed(s, registry, e).selection, s.revision + 1)
  {
    hide Refreshed;
    forall i | 0 <= i < |e.candidates| && Classified(registry, e, i).eligible
      ensures Refreshed(s, registry, e).selection
           == if forall j | 0 <= j < |e.candidates| && j != i :: !Classified(registry, e, j).eligible
              then Some(BindingOf(Classified(registry, e, i), s.revision + 1)) else None
    {
      SelectedAlone(s, registry, e, i);
    }
    if forall i | 0 <= i < |e.candidates| :: !Classified(registry, e, i).eligible {
      NothingSelected(s, registry, e);
    }
  }

  lemma NothingSelected(s: Inventory, registry: Registry, e: Enumeration)
    requires e.Valid() && forall i | 0 <= i < |e.candidates| :: !Classified(registry, e, i).eligible
    ensures Refreshed(s, registry, e).selection == None
  {
    hide EligibleOf;
    var devices := ClassifiedAll(registry, e);
    assert devices[..|devices|] == devices;
    NoneEligible(registry, e, |devices|);
  }

  /** Two trusted candidates of one identity pass the second test although only one passed the first. */
  predicate MindChanged(registry: Registry, e: Enumeration, i: nat, j: nat)
    requires e.Valid() && i < j < |e.candidates|
  {
    var id := e.candidates[i].id;
    && e.candidates[j].id == id && Found(registry, id) && Trusted(registry, id)
    && e.second[i] && e.second[j]
    && exists k | 0 <= k < |e.candidates| :: AloneFirst(e, id, k)
  }

  lemma CountIsOne(registry: Registry, e: Enumeration, id: DeviceID)
    requires e.Valid() && Found(registry, id) && Trusted(registry, id)
    ensures Count(registry, e, |e.candidates|, id) == 1 <==> exists k | 0 <= k < |e.candidates| :: AloneFirst(e, id, k)
  {
    hide Count;
    CountNone(registry, e, |e.candidates|, id);
    forall k | 0 <= k < |e.candidates| && e.candidates[k].id == id && e.first[k]
      ensures Count(registry, e, |e.candidates|, id) == 1 <==> AloneFirst(e, id, k)
    {
      CountOf(registry, e, |e.candidates|, id, k);
    }
  }

  /** Two eligible devices share an identity exactly when the validator changed its mind like that. */
  lemma SharedIdentityIff(registry: Registry, e: Enumeration, i: nat, j: nat)
    requires e.Valid() && i < j < |e.candidates|
    ensures
      (&& Classified(registry, e, i).eligible && Classified(registry, e, j).eligible
       && e.candidates[i].id == e.candidates[j].id) <==> MindChanged(registry, e, i, j)
  {
    var id := e.candidates[i].id;
    if Found(registry, id) && Trusted(registry, id) {
      CountIsOne(registry, e, id);
    }
  }

  /** Never if it answers the same twice. */
  lemma EligibleAreDistinct(registry: Registry, e: Enumeration, i: nat, j: nat)
    requires e.Valid() && e.first == e.second && i < j < |e.candidates|
    requires Classified(registry, e, i).eligible && Classified(registry, e, j).eligible
    ensures e.candidates[i].id != e.candidates[j].id
  {
    SharedIdentityIff(registry, e, i, j);
  }

  /** A validator that changes its mind between the two passes makes two devices eligible under one identity. */
  lemma FickleValidator(registry: Registry, id: DeviceID)
    requires Found(registry, id) && Trusted(registry, id)
    ensures var e := Enumeration([Candidate(id, "a"), Candidate(id, "b")], [true, false], [true, true]);
            Classified(registry, e, 0).eligible && Classified(registry, e, 1).eligible
  {
    var e := Enumeration([Candidate(id, "a"), Candidate(id, "b")], [true, false], [true, true]);
    CountOf(registry, e, 2, id, 0);
  }

  /** The last device of an identity stands for it. */
  lemma {:induction false} LatestIsLast(devices: seq<Device>, i: nat) returns (k: nat)
    requires i < |devices|
    ensures i <= k < |devices| && devices[k].id == devices[i].id
    ensures forall j | k < j < |devices| :: devices[j].id != devices[i].id
    ensures devices[i].id in Latest(devices) && Latest(devices)[devices[i].id] == devices[k]
  {
    hide Latest, EligibleOf;
    var last := |devices| - 1;
    var front := devices[..last];
    UnfoldLast(devices);
    if devices[last].id == devices[i].id {
      k := last;
    } else {
      k := LatestIsLast(front, i);
      assert front[i] == devices[i] && front[k] == devices[k];
      assert forall j | k < j < last :: front[j] == devices[j];
    }
  }

  /** Every identity of an enumeration stands for its last candidate. */
  lemma LastCandidateCounts(s: Inventory, registry: Registry, e: Enumeration, i: nat) returns (k: nat)
    requires e.Valid() && i < |e.candidates|
    ensures i <= k < |e.candidates| && e.candidates[k].id == e.candidates[i].id
    ensures forall j | k < j < |e.candidates| :: e.candidates[j].id != e.candidates[i].id
    ensures var next := Refreshed(s, registry, e);
            && next.revision == s.revision + 1
            && e.candidates[i].id in next.devices && next.devices[e.candidates[i].id] == Classified(registry, e, k)
  {
    hide Classified, Latest, EligibleOf, IDsOf;
    var devices := ClassifiedAll(registry, e);
    k := LatestIsLast(devices, i);
    ClassifiedIs(registry, e, i);
    ClassifiedIs(registry, e, k);
    forall j | k < j < |e.candidates| ensures e.candidates[j].id != e.candidates[i].id {
      ClassifiedIs(registry, e, j);
    }
  }

  /** And there is no other. */
  lemma NoOtherDevice(s: Inventory, registry: Registry, e: Enumeration, id: DeviceID)
    requires e.Valid() && id in Refreshed(s, registry, e).devices
    ensures exists j :: 0 <= j < |e.candidates| && e.candidates[j].id == id
  {
    hide Classified, EligibleOf, IDsOf;
    var devices := ClassifiedAll(registry, e);
    var j :| 0 <= j < |devices| && devices[j] == Latest(devices)[id];
    ClassifiedIs(registry, e, j);
    assert e.candidates[j].id == id;
  }

  /** A device is known once it was eligible. */
  lemma KnownAre(s: Inventory, registry: Registry, e: Enumeration, id: DeviceID)
    requires e.Valid()
    ensures id in Refreshed(s, registry, e).known <==>
              || id in s.known
              || exists j :: 0 <= j < |e.candidates| && e.candidates[j].id == id && Classified(registry, e, j).eligible
  {
    var devices := ClassifiedAll(registry, e);
    assert forall j | 0 <= j < |devices| :: devices[j] == Classified(registry, e, j) && devices[j] in devices;
    hide Classified, Latest, EligibleOf;
    if d :| d in EligibleOf(devices) && d.id == id {
      var j :| 0 <= j < |devices| && devices[j] == d;
      assert e.candidates[j].id == id;
    }
    if j :| 0 <= j < |e.candidates| && e.candidates[j].id == id && Classified(registry, e, j).eligible {
      assert devices[j] in EligibleOf(devices);
    }
  }

  /** The error about shared identities comes exactly if a candidate that has no serial number, although it
      may, and passes the second time is not eligible. */
  lemma AmbiguousIs(registry: Registry, e: Enumeration)
    requires e.Valid()
    ensures Ambiguous(registry, e, |e.candidates|) <==>
              exists j :: 0 <= j < |e.candidates| && !Classified(registry, e, j).eligible && e.second[j]
                && var id := e.candidates[j].id;
                   && id.serial == "" && id.vendor != 0 && id.product != 0
                   && (id.vendor, id.product) in registry && registry[(id.vendor, id.product)].serialless
  {
    hide Count;
  }

  /** The automatic selection can be used exactly when no later candidate, eligible or not, has the
      identity of the selected one: a later one takes its place in the inventory. */
  lemma AutomaticSelectionIsUsable(s: Inventory, registry: Registry, e: Enumeration, i: nat)
    requires e.Valid() && e.first == e.second && i < |e.candidates|
    requires Classified(registry, e, i).eligible
               && EligibleOf(ClassifiedAll(registry, e)) == [Classified(registry, e, i)]
    ensures Refreshed(s, registry, e).selection == Some(BindingOf(Classified(registry, e, i), s.revision + 1))
    ensures Usable(Refreshed(s, registry, e)) <==>
              forall j | i < j < |e.candidates| :: e.candidates[j].id != e.candidates[i].id
  {
    hide EligibleOf, Latest, Classified;
    var devices := ClassifiedAll(registry, e);
    var k := LatestIsLast(devices, i);
    ClassifiedIs(registry, e, i);
    ClassifiedIs(registry, e, k);
    if k == i {
      forall j | i < j < |e.candidates| ensures e.candidates[j].id != e.candidates[i].id {
        ClassifiedIs(registry, e, j);
      }
    } else if devices[k].eligible {
      EligibleAreDistinct(registry, e, i, k);
    }
  }

  lemma ClassifiedIs(registry: Registry, e: Enumeration, i: nat)
    requires e.Valid() && i < |e.candidates|
    ensures ClassifiedAll(registry, e)[i] == Classified(registry, e, i)
    ensures Classified(registry, e, i).id == e.candidates[i].id
  {
  }

  /** Two candidates with one identity, of which the second belongs to another interface. */
  lemma SelectionMayBeUnusable(registry: Registry, id: DeviceID)
    requires Found(registry, id) && Trusted(registry, id)
    ensures var e := Enumeration([Candidate(id, "a"), Candidate(id, "b")], [true, false], [true, false]);
            var s := Refreshed(EMPTY, registry, e);
            s.selection.Some? && !CanSelect(s, s.selection.value.id)
  {
    hide Classified, Latest, EligibleOf, Found, Trusted;
    var e := Enumeration([Candidate(id, "a"), Candidate(id, "b")], [true, false], [true, false]);
    SecondIsMismatched(registry, id);
    SelectedAlone(EMPTY, registry, e, 0);
    var devices := ClassifiedAll(registry, e);
    assert devices[0] == Classified(registry, e, 0) && devices[1] == Classified(registry, e, 1);
    var k := LatestIsLast(devices, 0);
    assert k == 1;
  }

  lemma SecondIsMismatched(registry: Registry, id: DeviceID)
    requires Found(registry, id) && Trusted(registry, id)
    ensures var e := Enumeration([Candidate(id, "a"), Candidate(id, "b")], [true, false], [true, false]);
            && Classified(registry, e, 0).eligible && !Classified(registry, e, 1).eligible
            && Classified(registry, e, 0).id == Classified(registry, e, 1).id == id
  {
    CountOf(registry, Enumeration([Candidate(id, "a"), Candidate(id, "b")], [true, false], [true, false]), 2, id, 0);
  }

  // ------------------------------------------------------------------ runs

  /** A successful enumeration or a choice of the user. */
  datatype Event = Enumerated(e: Enumeration) | Chosen(id: DeviceID)

  function Step(s: Inventory, registry: Registry, event: Event): Inventory
    requires event.Enumerated? ==> event.e.Valid()
  {
    match event
    case Enumerated(e) => Refreshed(s, registry, e)
    case Chosen(id) => Selected(s, id)
  }

  ghost predicate Possible(events: seq<Event>) {
    forall i | 0 <= i < |events| && events[i].Enumerated? :: events[i].e.Valid()
  }

  function Run(s: Inventory, registry: Registry, events: seq<Event>): Inventory
    requires Possible(events)
  {
    if events == [] then s else Step(Run(s, registry, events[..|events| - 1]), registry, events[|events| - 1])
  }

  /** The selected binding is that of an eligible device of the last enumeration, and it carries the
      current revision. */
  ghost predicate Inv(s: Inventory) {
    && s.devices == Latest(s.result)
    && (s.selection.Some? ==> exists d :: d in s.result && d.eligible && BindingOf(d, s.revision) == s.selection.value)
  }

  lemma StepKeepsInv(s: Inventory, registry: Registry, event: Event)
    requires Inv(s) && (event.Enumerated? ==> event.e.Valid())
    ensures Inv(Step(s, registry, event))
    ensures Step(s, registry, event).revision == s.revision + (if event.Enumerated? then 1 else 0)
    ensures s.known <= Step(s, registry, event).known
  {
    hide Latest, ClassifiedAll;
    if event.Enumerated? {
      var result := ClassifiedAll(registry, event.e);
      var eligible := EligibleOf(result);
      if |eligible| == 1 {
        assert eligible[0] in eligible;
      }
    }
  }

  lemma {:induction false} RunKeepsInv(registry: Registry, events: seq<Event>)
    requires Possible(events)
    ensures Inv(Run(EMPTY, registry, events))
  {
    if events != [] {
      RunKeepsInv(registry, events[..|events| - 1]);
      StepKeepsInv(Run(EMPTY, registry, events[..|events| - 1]), registry, events[|events| - 1]);
    }
  }

  lemma {:induction false} RunFrom(s: Inventory, registry: Registry, events: seq<Event>)
    requires Possible(events) && Inv(s)
    ensures Inv(Run(s, registry, events))
    ensures Run(s, registry, events).revision >= s.revision
    ensures (exists i :: 0 <= i < |events| && events[i].Enumerated?) ==> Run(s, registry, events).revision > s.revision
  {
    if events != [] {
      var front := events[..|events| - 1];
      RunFrom(s, registry, front);
      StepKeepsInv(Run(s, registry, front), registry, events[|events| - 1]);
      if i :| 0 <= i < |events| && events[i].Enumerated? {
        assert i < |front| ==> front[i].Enumerated?;
      }
    }
  }

  /** A binding that was selected before a successful enumeration is never selected again, whatever
      happens: no completion is committed under it. */
  lemma StaleForever(registry: Registry, before: seq<Event>, after: seq<Event>, binding: Binding)
    requires Possible(before) && Possible(after)
    requires Run(EMPTY, registry, before).selection == Some(binding)
    requires exists i :: 0 <= i < |after| && after[i].Enumerated?
    ensures Run(Run(EMPTY, registry, before), registry, after).selection != Some(binding)
  {
    RunKeepsInv(registry, before);
    RunFrom(Run(EMPTY, registry, before), registry, after);
  }

  /** Until then, whoever is selected has the revision of the inventory. */
  lemma SelectionHasRevision(registry: Registry, events: seq<Event>)
    requires Possible(events)
    ensures var s := Run(EMPTY, registry, events); s.selection.Some? ==> s.selection.value.revision == s.revision
  {
    RunKeepsInv(registry, events);
  }
}
