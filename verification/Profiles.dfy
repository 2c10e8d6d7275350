/** The profiles of one device as a caller sees them (internal/configstore/profiles.go): what may
    be changed, and what every change keeps. */
module Profiles {
  import opened Text

  datatype Summary = Summary(id: string, name: string, createdAt: nat)

  datatype Snapshot = Snapshot(profiles: seq<Summary>, activeID: string, notice: string)

  /** What a device's directory holds: no index, something that cannot be loaded, or profiles with
      the configuration of each. */
  datatype Store =
    | Absent
    | Damaged
    | Present(hardware: string, snapshot: Snapshot, payloads: map<string, string>)

  /** Sixteen bytes in lower-case hexadecimal. */
  predicate ValidID(id: string) {
    |id| == 32 && forall i | 0 <= i < |id| :: '0' <= id[i] <= '9' || 'a' <= id[i] <= 'f'
  }

  predicate IsControl(c: char) {
    c < ' ' || '\U{7F}' <= c <= '\U{9F}'
  }

  predicate ValidName(name: string) {
    && 1 <= |name| <= 80 && name != "." && name != ".."
    && !IsSpace(name[0]) && !IsSpace(name[|name| - 1])
    && forall i | 0 <= i < |name| :: name[i] != '/' && name[i] != '\\' && !IsControl(name[i])
  }

  predicate UniqueIDs(profiles: seq<Summary>) {
    forall i, j | 0 <= i < j < |profiles| :: profiles[i].id != profiles[j].id
  }

  predicate UniqueNames(profiles: seq<Summary>) {
    forall i, j | 0 <= i < j < |profiles| :: profiles[i].name != profiles[j].name
  }

  predicate ValidProfiles(profiles: seq<Summary>) {
    && profiles != [] && UniqueIDs(profiles)
    && forall i | 0 <= i < |profiles| :: ValidID(profiles[i].id) && ValidName(profiles[i].name)
  }

  predicate Lists(profiles: seq<Summary>, id: string) {
    exists i | 0 <= i < |profiles| :: profiles[i].id == id
  }

  function IDs(profiles: seq<Summary>): (ids: set<string>)
    ensures forall id :: id in ids <==> Lists(profiles, id)
  {
    set i | 0 <= i < |profiles| :: profiles[i].id
  }

  /** What loading an index checks. */
  predicate ValidSnapshot(s: Snapshot) {
    ValidProfiles(s.profiles) && Lists(s.profiles, s.activeID)
  }

  /** What the program keeps. Loading does not check that names are unique. */
  predicate Sound(s: Store) {
    match s
    case Absent => true
    case Damaged => false
    case Present(_, snapshot, payloads) =>
      ValidSnapshot(snapshot) && UniqueNames(snapshot.profiles) && payloads.Keys == IDs(snapshot.profiles)
  }

  function Position(profiles: seq<Summary>, id: string): (position: int)
    ensures -1 <= position < |profiles|
    ensures position >= 0 <==> Lists(profiles, id)
    ensures position >= 0 ==> profiles[position].id == id
  {
    if profiles == [] then -1
    else if profiles[0].id == id then
      assert Lists(profiles, id);
      0
    else
      var rest := Position(profiles[1..], id);
      assert forall i | 0 <= i < |profiles| - 1 :: profiles[i + 1] == profiles[1..][i];
      assert Lists(profiles, id) ==> Lists(profiles[1..], id) by {
        if Lists(profiles, id) {
          var i :| 0 <= i < |profiles| && profiles[i].id == id;
          assert profiles[1..][i - 1].id == id;
        }
      }
      assert rest >= 0 ==> profiles[rest + 1].id == id;
      if rest < 0 then -1 else rest + 1
  }

  predicate NameInUse(profiles: seq<Summary>, name: string, exceptID: string) {
    exists i | 0 <= i < |profiles| :: profiles[i].name == name && profiles[i].id != exceptID
  }

  // ------------------------------------------------------------------ changes

  datatype Change =
    | Seed(hardware: string, profile: Summary, configuration: string, notice: string)
    | Clone(sourceID: string, profile: Summary, activate: bool)
    | Rename(id: string, name: string)
    | Switch(id: string)
    | DismissNotice
    | SaveActive(configuration: string)
    | Delete(id: string)

  /** The guards of the operations. A new profile's ID is fresh. */
  predicate Permitted(s: Store, c: Change) {
    if c.Seed? then s.Absent? && ValidID(c.profile.id) && ValidName(c.profile.name)
    else
      && s.Present?
      && var profiles := s.snapshot.profiles;
         match c
         case Clone(sourceID, p, activate) =>
           && Lists(profiles, sourceID) && (activate ==> sourceID == s.snapshot.activeID)
           && ValidName(p.name) && !NameInUse(profiles, p.name, "")
           && ValidID(p.id) && !Lists(profiles, p.id)
         case Rename(id, name) => ValidName(name) && Lists(profiles, id) && !NameInUse(profiles, name, id)
         case Switch(id) => Lists(profiles, id)
         case Delete(id) => Lists(profiles, id) && |profiles| > 1 && s.snapshot.activeID != id
         case _ => true
  }

  /** The index after a change. */
  function ChangedSnapshot(s: Snapshot, c: Change): Snapshot
    requires !c.Seed?
    requires c.Rename? || c.Delete? ==> Lists(s.profiles, c.id)
  {
    match c
    case Clone(_, p, activate) => s.(profiles := s.profiles + [p], activeID := if activate then p.id else s.activeID)
    case Rename(id, name) =>
      var position := Position(s.profiles, id);
      s.(profiles := s.profiles[position := s.profiles[position].(name := name)])
    case Switch(id) => s.(activeID := id)
    case DismissNotice => s.(notice := "")
    case SaveActive(_) => s
    case Delete(id) =>
      var position := Position(s.profiles, id);
      s.(profiles := s.profiles[..position] + s.profiles[position + 1..])
  }

  function Changed(s: Store, c: Change): Store
    requires Sound(s) && Permitted(s, c)
  {
    match c
    case Seed(hardware, p, configuration, notice) =>
      Present(hardware, Snapshot([p], p.id, notice), map[p.id := configuration])
    case Clone(sourceID, p, _) =>
      s.(snapshot := ChangedSnapshot(s.snapshot, c), payloads := s.payloads[p.id := s.payloads[sourceID]])
    case SaveActive(configuration) => s.(payloads := s.payloads[s.snapshot.activeID := configuration])
    case Delete(id) => s.(snapshot := ChangedSnapshot(s.snapshot, c), payloads := s.payloads - {id})
    case _ => s.(snapshot := ChangedSnapshot(s.snapshot, c))
  }

  /** What a renaming, a switch and a dismissal do: the profiles stay in their places, and each of the three
      changes nothing but its own part. */
  lemma IndexChangesAre(s: Store, c: Change)
    requires s.Present? && Sound(s) && Permitted(s, c) && (c.Rename? || c.Switch? || c.DismissNotice?)
    ensures var next := Changed(s, c);
            && next.Present? && next.hardware == s.hardware && next.payloads == s.payloads
            && |next.snapshot.profiles| == |s.snapshot.profiles|
            && next.snapshot.activeID == (if c.Switch? then c.id else s.snapshot.activeID)
            && next.snapshot.notice == (if c.DismissNotice? then "" else s.snapshot.notice)
            && forall i | 0 <= i < |s.snapshot.profiles| ::
                 var before, after := s.snapshot.profiles[i], next.snapshot.profiles[i];
                 && after.id == before.id && after.createdAt == before.createdAt
                 && after.name == if c.Rename? && before.id == c.id then c.name else before.name
  {
    hide ValidName, ValidID, Position, UniqueNames, NameInUse;
  }

  /** What the others do: a new profile stands last, with the configuration of its source, and becomes active
      when asked; a deleted one is gone with its configuration and the rest stays in order; a save replaces the
      active configuration; a seed is the only profile, and active. */
  lemma OtherChangesAre(s: Store, c: Change)
    requires Sound(s) && Permitted(s, c) && (c.Clone? || c.Delete? || c.SaveActive? || c.Seed?)
    ensures var next := Changed(s, c);
            next.Present? &&
            match c
            case Clone(sourceID, p, activate) =>
              && next.hardware == s.hardware && next.snapshot.notice == s.snapshot.notice
              && next.snapshot.profiles == s.snapshot.profiles + [p]
              && next.snapshot.activeID == (if activate then p.id else s.snapshot.activeID)
              && sourceID in s.payloads && next.payloads == s.payloads[p.id := s.payloads[sourceID]]
            case Delete(id) =>
              && next.hardware == s.hardware && next.snapshot.notice == s.snapshot.notice
              && next.snapshot.activeID == s.snapshot.activeID != id
              && next.payloads == s.payloads - {id}
              && exists k | 0 <= k < |s.snapshot.profiles| ::
                   && s.snapshot.profiles[k].id == id
                   && next.snapshot.profiles == s.snapshot.profiles[..k] + s.snapshot.profiles[k + 1..]
            case SaveActive(configuration) =>
              next == s.(payloads := s.payloads[s.snapshot.activeID := configuration])
            case Seed(hardware, p, configuration, notice) =>
              next == Present(hardware, Snapshot([p], p.id, notice), map[p.id := configuration])
            case _ => true
  {
    hide ValidName, ValidID, UniqueNames, NameInUse, UniqueIDs;
  }

  /** Which changes are permitted. A name may be used once, by a profile that keeps it as well. */
  lemma PermittedIs(s: Store, c: Change)
    requires s.Present?
    ensures var profiles := s.snapshot.profiles;
            Permitted(s, c) <==>
              match c
              case Seed(_, _, _, _) => false
              case Clone(sourceID, p, activate) =>
                && (exists i :: 0 <= i < |profiles| && profiles[i].id == sourceID)
                && (activate ==> sourceID == s.snapshot.activeID)
                && ValidName(p.name) && ValidID(p.id)
                && forall i | 0 <= i < |profiles| ::
                     profiles[i].id != p.id && (profiles[i].name == p.name ==> profiles[i].id == "")
              case Rename(id, name) =>
                && (exists i :: 0 <= i < |profiles| && profiles[i].id == id)
                && ValidName(name) && forall i | 0 <= i < |profiles| && profiles[i].name == name :: profiles[i].id == id
              case Switch(id) => exists i :: 0 <= i < |profiles| && profiles[i].id == id
              case Delete(id) =>
                && (exists i :: 0 <= i < |profiles| && profiles[i].id == id)
                && |profiles| > 1 && s.snapshot.activeID != id
              case _ => true
  {
    hide ValidName, ValidID;
  }

  /** Which names are valid: 1 to 80 characters, none of them a slash, a backslash or a control character (by
      number), no white space at the ends, and not one of the two names of directories. */
  lemma NamesAre(name: string)
    ensures ValidName(name) <==>
              && 1 <= |name| <= 80 && name !in {".", ".."}
              && (forall c | c in name :: c != '/' && c != '\\' && 32 <= c as int && !(127 <= c as int < 160))
              && !Blank([name[0]]) && !Blank([name[|name| - 1]])
  {
    hide IsSpace;
    if name != "" {
      var first, last := [name[0]], [name[|name| - 1]];
      assert Blank(first) <==> IsSpace(first[0]);
      assert Blank(last) <==> IsSpace(last[0]);
    }
    assert forall i | 0 <= i < |name| :: name[i] in name;
  }

  lemma IDsAre(id: string)
    ensures ValidID(id) <==> |id| == 32 && forall c | c in id :: c in "0123456789abcdef"
  {
    assert forall i | 0 <= i < |id| :: id[i] in id;
    forall c | c in id ensures c in "0123456789abcdef" <==> '0' <= c <= '9' || 'a' <= c <= 'f' {
      HexDigit(c);
    }
  }

  lemma RenamedIsSound(profiles: seq<Summary>, id: string, name: string)
    requires ValidProfiles(profiles) && UniqueNames(profiles) && Lists(profiles, id)
    requires ValidName(name) && !NameInUse(profiles, name, id)
    ensures var position := Position(profiles, id);
            var renamed := profiles[position := profiles[position].(name := name)];
            && ValidProfiles(renamed) && UniqueNames(renamed)
            && forall other :: Lists(renamed, other) <==> Lists(profiles, other)
  {
    hide ValidName, ValidID, Position;
    var position := Position(profiles, id);
    var renamed := profiles[position := profiles[position].(name := name)];
    assert forall i | 0 <= i < |profiles| :: renamed[i].id == profiles[i].id;
    forall i | 0 <= i < |profiles| && i != position ensures renamed[i].name != name {
      assert profiles[i].id != id;
    }
  }

  lemma ClonedIsSound(profiles: seq<Summary>, p: Summary)
    requires ValidProfiles(profiles) && UniqueNames(profiles)
    requires ValidName(p.name) && !NameInUse(profiles, p.name, "") && ValidID(p.id) && !Lists(profiles, p.id)
    ensures ValidProfiles(profiles + [p]) && UniqueNames(profiles + [p])
    ensures forall other :: Lists(profiles + [p], other) <==> other == p.id || Lists(profiles, other)
  {
    hide ValidName;
    var cloned := profiles + [p];
    forall i | 0 <= i < |profiles| ensures cloned[i].id != p.id && cloned[i].name != p.name {
      assert profiles[i].id != "";
    }
    assert cloned[|profiles|].id == p.id;
    forall other | Lists(profiles, other) ensures Lists(cloned, other) {
      var i :| 0 <= i < |profiles| && profiles[i].id == other;
      assert cloned[i].id == other;
    }
  }

  lemma DeletedIsSound(profiles: seq<Summary>, id: string)
    requires ValidProfiles(profiles) && UniqueNames(profiles) && Lists(profiles, id) && |profiles| > 1
    ensures var position := Position(profiles, id);
            var left := profiles[..position] + profiles[position + 1..];
            && ValidProfiles(left) && UniqueNames(left)
            && forall other :: Lists(left, other) <==> other != id && Lists(profiles, other)
  {
    hide ValidName, ValidID, Position;
    var position := Position(profiles, id);
    var left := profiles[..position] + profiles[position + 1..];
    assert forall i | 0 <= i < |left| :: left[i] == profiles[if i < position then i else i + 1];
    forall other | other != id && Lists(profiles, other) ensures Lists(left, other) {
      var i :| 0 <= i < |profiles| && profiles[i].id == other;
      assert left[if i < position then i else i - 1].id == other;
    }
  }

  /** Every permitted change keeps IDs and names unique, the active profile listed and a
      configuration for every listed profile. */
  lemma ChangedIsSound(s: Store, c: Change)
    requires Sound(s) && Permitted(s, c)
    ensures Sound(Changed(s, c))
  {
    hide ValidName, ValidID, Position, UniqueNames, ValidProfiles, NameInUse;
    match c
    case Seed(_, p, _, _) =>
      SeededIsSound(p);
    case Clone(sourceID, p, _) =>
      ClonedIsSound(s.snapshot.profiles, p);
    case Rename(id, name) =>
      RenamedIsSound(s.snapshot.profiles, id, name);
    case Delete(id) =>
      DeletedIsSound(s.snapshot.profiles, id);
    case _ =>
  }

  lemma SeededIsSound(p: Summary)
    requires ValidID(p.id) && ValidName(p.name)
    ensures ValidProfiles([p]) && UniqueNames([p]) && forall other :: Lists([p], other) <==> other == p.id
  {
    assert [p][0] == p;
  }

  /** No change touches the configuration of another profile: a profile listed before and after
      keeps its configuration, unless it is the active one and is being saved. */
  lemma ChangesKeepConfigurations(s: Store, c: Change, id: string)
    requires s.Present? && Sound(s) && Permitted(s, c)
    requires Lists(s.snapshot.profiles, id) && Lists(Changed(s, c).snapshot.profiles, id)
    requires c.SaveActive? ==> id != s.snapshot.activeID
    ensures id in s.payloads && id in Changed(s, c).payloads
    ensures Changed(s, c).payloads[id] == s.payloads[id]
  {
    hide ValidProfiles, UniqueNames, ValidName, ValidID, ChangedSnapshot, NameInUse;
    ChangedIsSound(s, c);
  }

  // ------------------------------------------------------------------ runs

  function AfterChange(s: Store, c: Change): Option<Store> {
    if Sound(s) && Permitted(s, c) then Some(Changed(s, c)) else None
  }

  /** The store after a run of permitted changes. */
  function AfterRun(s: Store, changes: seq<Change>): Option<Store> {
    if changes == [] then Some(s)
    else
      var before := AfterRun(s, changes[..|changes| - 1]);
      if before.None? then None else AfterChange(before.value, changes[|changes| - 1])
  }

  /** The stores that complete changes can lead to. */
  ghost predicate Reachable(start: Store, s: Store) {
    exists changes :: AfterRun(start, changes) == Some(s)
  }

  lemma ReachableChange(start: Store, s: Store, c: Change)
    requires Reachable(start, s)
    ensures Sound(s) && Permitted(s, c) ==> Reachable(start, Changed(s, c))
  {
    hide Permitted, Changed, Sound;
    if Sound(s) && Permitted(s, c) {
      var changes :| AfterRun(start, changes) == Some(s);
      assert (changes + [c])[..|changes|] == changes;
      assert AfterRun(start, changes + [c]) == Some(Changed(s, c));
    }
  }

  lemma StartIsReachable(start: Store)
    ensures Reachable(start, start)
  {
    assert AfterRun(start, []) == Some(start);
  }

  /** The stores differ in configurations at most. */
  predicate SameIndex(s: Store, t: Store) {
    s.Present? && t.Present? && s.hardware == t.hardware && s.snapshot == t.snapshot
      && s.payloads.Keys == t.payloads.Keys
  }

  /** Switching to a profile, saving and switching back reaches any configuration of it. */
  lemma ReconfiguringReaches(start: Store, s: Store, id: string, configuration: string)
    requires Reachable(start, s) && s.Present? && Sound(s) && id in s.payloads
    ensures Reachable(start, s.(payloads := s.payloads[id := configuration]))
    ensures Sound(s.(payloads := s.payloads[id := configuration]))
  {
    hide ValidSnapshot, UniqueNames, Reachable;
    var active := s.snapshot.activeID;
    assert Lists(s.snapshot.profiles, id) && Lists(s.snapshot.profiles, active) by {
      ActiveIsListed(s);
    }
    var away := Changed(s, Switch(id));
    ChangedIsSound(s, Switch(id));
    ReachableChange(start, s, Switch(id));
    var saved := Changed(away, SaveActive(configuration));
    ChangedIsSound(away, SaveActive(configuration));
    ReachableChange(start, away, SaveActive(configuration));
    ChangedIsSound(saved, Switch(active));
    ReachableChange(start, saved, Switch(active));
    assert Changed(saved, Switch(active)) == s.(payloads := s.payloads[id := configuration]);
  }

  lemma ActiveIsListed(s: Store)
    requires s.Present? && Sound(s)
    ensures Lists(s.snapshot.profiles, s.snapshot.activeID)
  {
  }

  function Differing(s: Store, t: Store): set<string>
    requires SameIndex(s, t)
  {
    set id | id in s.payloads && s.payloads[id] != t.payloads[id]
  }

  /** So the stores that changes lead to are closed under any mix of configurations. */
  lemma {:induction false} MixIsReachable(start: Store, t: Store, s: Store)
    requires Reachable(start, t) && Sound(t) && SameIndex(s, t)
    ensures Reachable(start, s) && Sound(s)
    decreases Differing(s, t)
  {
    hide Reachable, ValidSnapshot, UniqueNames;
    if id :| id in s.payloads && s.payloads[id] != t.payloads[id] {
      var next := t.(payloads := t.payloads[id := s.payloads[id]]);
      ReconfiguringReaches(start, t, id, s.payloads[id]);
      assert id in Differing(s, t) && id !in Differing(s, next);
      MixIsReachable(start, next, s);
    } else {
      assert s.payloads == t.payloads;
    }
  }

  /** A run of changes keeps the store sound, and a store that exists stays, with its hardware profile. */
  lemma {:induction false} RunKeepsStore(start: Store, changes: seq<Change>)
    requires Sound(start)
    ensures var s := AfterRun(start, changes);
            s.Some? ==> Sound(s.value) && (start.Present? ==> s.value.Present? && s.value.hardware == start.hardware)
  {
    hide Sound, ChangedSnapshot;
    if changes != [] {
      var c := changes[|changes| - 1];
      var before := AfterRun(start, changes[..|changes| - 1]);
      RunKeepsStore(start, changes[..|changes| - 1]);
      if before.Some? && Permitted(before.value, c) {
        ChangedIsSound(before.value, c);
      }
    }
  }

  lemma ReachableIsSound(start: Store, s: Store)
    requires Sound(start) && Reachable(start, s)
    ensures Sound(s) && (start.Present? ==> s.Present? && s.hardware == start.hardware)
  {
    var changes :| AfterRun(start, changes) == Some(s);
    RunKeepsStore(start, changes);
  }
}
