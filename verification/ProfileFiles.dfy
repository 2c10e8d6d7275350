/** The files behind the profiles of one device (internal/configstore/profiles.go).

    A call may fail at any system call, after having published as well, and the program may be
    killed or the machine lose power between any two of them. The disk may keep the operations
    since the last sync in any order or up to any of them. `possible` stands for the stores that
    a crash may leave. */
module ProfileFiles {
  import opened Profiles
  import opened DurableDirectory
  import Text

  datatype Name = Index | Payload(id: string) | Temp(n: nat)

  /** What a file holds: an index, a profile, or nothing the program can read. */
  datatype Record =
    | IndexFile(hardware: string, snapshot: Snapshot)
    | ProfileFile(id: string, configuration: string)
    | Unreadable

  type View = map<Name, Record>
  type StoreDisk = Disk<Name, Record>

  /** The files that have a lasting name. */
  function ViewOf(entries: Entries<Name>, files: map<nat, File<Record>>): View {
    map name | name in entries && !name.Temp? && entries[name] in files :: files[entries[name]].data
  }

  predicate HasProfile(view: View, id: string) {
    Payload(id) in view && view[Payload(id)].ProfileFile? && view[Payload(id)].id == id
  }

  predicate HasConfiguration(view: View, id: string, configuration: string) {
    HasProfile(view, id) && view[Payload(id)].configuration == configuration
  }

  predicate HasProfiles(view: View, profiles: seq<Summary>) {
    forall i | 0 <= i < |profiles| :: HasProfile(view, profiles[i].id)
  }

  /** What loading finds, whatever the hardware profile. */
  function Contents(view: View): Store {
    if Index !in view then Absent
    else
      match view[Index]
      case IndexFile(hardware, snapshot) =>
        if ValidSnapshot(snapshot) && HasProfiles(view, snapshot.profiles)
        then Present(hardware, snapshot, Configurations(view, snapshot.profiles))
        else Damaged
      case _ => Damaged
  }

  function Configurations(view: View, profiles: seq<Summary>): (payloads: map<string, string>)
    requires HasProfiles(view, profiles)
    ensures payloads.Keys == IDs(profiles)
  {
    map id | id in IDs(profiles) :: (assert HasProfile(view, id); view[Payload(id)].configuration)
  }

  /** When the files are a store, and which one: the index lists at least one profile, no ID twice and the
      active one, all IDs and names are valid, and every listed profile has a file with its own ID. */
  lemma ContentsAre(view: View)
    ensures Contents(view).Absent? <==> Index !in view
    ensures Contents(view).Present? <==>
              && Index in view && view[Index].IndexFile?
              && var s := view[Index].snapshot;
                 && s.profiles != []
                 && (forall i, j | 0 <= i < j < |s.profiles| :: s.profiles[i].id != s.profiles[j].id)
                 && (forall i | 0 <= i < |s.profiles| ::
                       var id := s.profiles[i].id;
                       && ValidID(id) && ValidName(s.profiles[i].name)
                       && Payload(id) in view && view[Payload(id)].ProfileFile? && view[Payload(id)].id == id)
                 && exists i :: 0 <= i < |s.profiles| && s.profiles[i].id == s.activeID
    ensures Contents(view).Present? ==>
              var store := Contents(view);
              && store.hardware == view[Index].hardware && store.snapshot == view[Index].snapshot
              && (forall id ::
                    id in store.payloads <==>
                      exists i :: 0 <= i < |store.snapshot.profiles| && store.snapshot.profiles[i].id == id)
              && forall i | 0 <= i < |store.snapshot.profiles| ::
                   var id := store.snapshot.profiles[i].id;
                   id in store.payloads && store.payloads[id] == view[Payload(id)].configuration
  {
    hide ValidID, ValidName;
    if Contents(view).Present? {
      var profiles := view[Index].snapshot.profiles;
      assert forall i | 0 <= i < |profiles| :: HasProfile(view, profiles[i].id) && profiles[i].id in IDs(profiles);
    }
  }

  /** Lasting names are given to synced files only. */
  predicate Solid(entries: Entries<Name>, files: map<nat, File<Record>>) {
    forall name | name in entries && !name.Temp? :: entries[name] in files && files[entries[name]].synced
  }

  function Views(all: set<Entries<Name>>, files: map<nat, File<Record>>): set<View> {
    set e | e in all :: ViewOf(e, files)
  }

  /** What a loss of power may leave. */
  function AllViews(env: Environment, disk: StoreDisk): set<View> {
    Views(Remains(env, disk.durable, disk.log), disk.files)
  }

  /** What the next operation may find on the disk. */
  function BaseViews(env: Environment, disk: StoreDisk): set<View> {
    Views(Bases(env, disk.durable, disk.log), disk.files)
  }

  function LiveView(disk: StoreDisk): View {
    ViewOf(disk.Live(), disk.files)
  }

  /** Every profile that the index of one view lists is there in another. */
  predicate Supported(view: View, other: View) {
    Index in view && view[Index].IndexFile? ==> HasProfiles(other, view[Index].snapshot.profiles)
  }

  ghost predicate Coherent(views: set<View>) {
    forall v, w | v in views && w in views :: Supported(v, w)
  }

  /** Whatever survives a crash is one of the possible stores. On a disk that keeps operations in any
      order, what one surviving index lists is there whatever else survives. */
  ghost predicate Inv(env: Environment, disk: StoreDisk, possible: iset<Store>) {
    && (forall e | e in Remains(env, disk.durable, disk.log) :: Solid(e, disk.files))
    && (forall v | v in AllViews(env, disk) :: Contents(v) in possible)
    && (!env.ordered ==> Coherent(AllViews(env, disk)))
  }

  // ------------------------------------------------------------------ what crashes keep

  lemma ViewsOf(all: set<Entries<Name>>, files: map<nat, File<Record>>)
    ensures forall e | e in all :: ViewOf(e, files) in Views(all, files)
    ensures forall e | all == {e} :: Views(all, files) == {ViewOf(e, files)}
  {
    hide ViewOf;
  }

  lemma FewerViews(part: set<Entries<Name>>, all: set<Entries<Name>>, files: map<nat, File<Record>>)
    requires part <= all
    ensures Views(part, files) <= Views(all, files)
  {
    hide ViewOf;
  }

  /** The views after an operation, given what it does to each of those before. */
  lemma MoreViews(
    all: set<Entries<Name>>, bases: set<Entries<Name>>, after: set<Entries<Name>>, files: map<nat, File<Record>>,
    op: Op<Name>)
    requires after == all + set e | e in bases :: Perform(e, op)
    ensures forall v | v in Views(after, files) ::
              v in Views(all, files) || exists e :: e in bases && v == ViewOf(Perform(e, op), files)
    ensures Views(all, files) <= Views(after, files)
  {
    hide ViewOf, Perform;
    FewerViews(all, after, files);
    forall v | v in Views(after, files)
      ensures v in Views(all, files) || exists e :: e in bases && v == ViewOf(Perform(e, op), files)
    {
      var f :| f in after && v == ViewOf(f, files);
      if f !in all {
        var e :| e in bases && f == Perform(e, op);
      }
    }
  }

  lemma LiveIsAmong(env: Environment, disk: StoreDisk)
    ensures LiveView(disk) in BaseViews(env, disk) && BaseViews(env, disk) <= AllViews(env, disk)
    ensures !env.ordered ==> BaseViews(env, disk) == AllViews(env, disk)
    ensures env.ordered ==> BaseViews(env, disk) == {LiveView(disk)}
    ensures disk.log == [] ==> AllViews(env, disk) == {LiveView(disk)}
    ensures disk.Live() in Bases(env, disk.durable, disk.log)
    ensures Bases(env, disk.durable, disk.log) <= Remains(env, disk.durable, disk.log)
  {
    hide ViewOf, Views;
    var bases, remains := Bases(env, disk.durable, disk.log), Remains(env, disk.durable, disk.log);
    BasesRemain(env, disk.durable, disk.log);
    ViewsOf(bases, disk.files);
    ViewsOf(remains, disk.files);
    FewerViews(bases, remains, disk.files);
    assert env.ordered ==> bases == {disk.Live()};
    assert disk.log == [] ==> remains == {disk.Live()};
  }

  lemma LiveIsPossible(env: Environment, disk: StoreDisk, possible: iset<Store>)
    requires Inv(env, disk, possible)
    ensures Contents(LiveView(disk)) in possible && Solid(disk.Live(), disk.files)
  {
    hide Contents, Solid, Views;
    LiveIsAmong(env, disk);
  }

  lemma MorePossible(env: Environment, disk: StoreDisk, possible: iset<Store>, more: iset<Store>)
    requires Inv(env, disk, possible) && possible <= more
    ensures Inv(env, disk, more)
  {
    hide Contents, Solid, Views, Coherent;
  }

  lemma FilesKeepView(entries: Entries<Name>, files: map<nat, File<Record>>, after: map<nat, File<Record>>)
    requires Solid(entries, files)
    requires forall i | i in files && files[i].synced :: i in after && after[i] == files[i]
    ensures Solid(entries, after) && ViewOf(entries, after) == ViewOf(entries, files)
  {
  }

  lemma FilesKeepViews(all: set<Entries<Name>>, files: map<nat, File<Record>>, after: map<nat, File<Record>>)
    requires forall e | e in all :: Solid(e, files)
    requires forall i | i in files && files[i].synced :: i in after && after[i] == files[i]
    ensures forall e | e in all :: Solid(e, after)
    ensures Views(all, after) == Views(all, files)
  {
    hide Solid, ViewOf;
    forall e | e in all ensures Solid(e, after) && ViewOf(e, after) == ViewOf(e, files) {
      FilesKeepView(e, files, after);
    }
  }

  /** Files that are not synced may change, and new ones appear. */
  lemma FilesKeepInv(env: Environment, disk: StoreDisk, files: map<nat, File<Record>>, possible: iset<Store>)
    requires Inv(env, disk, possible)
    requires forall i | i in disk.files && disk.files[i].synced :: i in files && files[i] == disk.files[i]
    ensures Inv(env, disk.(files := files), possible)
    ensures SameViews(env, disk, disk.(files := files))
  {
    hide Contents, Solid, Views, Coherent;
    LiveIsAmong(env, disk);
    FilesKeepViews(Remains(env, disk.durable, disk.log), disk.files, files);
    FilesKeepViews(Bases(env, disk.durable, disk.log), disk.files, files);
    FilesKeepView(disk.Live(), disk.files, files);
  }

  predicate SameViews(env: Environment, before: StoreDisk, after: StoreDisk) {
    && AllViews(env, after) == AllViews(env, before)
    && BaseViews(env, after) == BaseViews(env, before)
    && LiveView(after) == LiveView(before)
  }

  lemma HaltKeepsInv(env: Environment, before: StoreDisk, after: StoreDisk, possible: iset<Store>)
    requires Inv(env, before, possible) && Halts(env, before, after)
    ensures Inv(env, after, possible)
  {
    hide Contents, Solid, Coherent, Views, ViewOf, Remains, Bases, Replay;
    if PowerLoss(env, before, after) {
      var kept :| Survives(env, kept, before.log) && after.durable == Replay(before.durable, kept);
      var scrambled := before.(files := after.files);
      SurvivorRemains(env, before.durable, kept, before.log);
      FilesKeepInv(env, before, after.files, possible);
      ViewsOf(Remains(env, before.durable, before.log), after.files);
      OnlyOneView(env, after);
      CoherentPart(AllViews(env, scrambled), AllViews(env, after));
    }
  }

  lemma OnlyOneView(env: Environment, disk: StoreDisk)
    requires disk.log == []
    ensures Remains(env, disk.durable, disk.log) == Bases(env, disk.durable, disk.log) == {disk.durable}
    ensures AllViews(env, disk) == BaseViews(env, disk) == {LiveView(disk)}
    ensures LiveView(disk) == ViewOf(disk.durable, disk.files)
  {
  }

  lemma CoherentPart(all: set<View>, part: set<View>)
    requires part <= all
    ensures Coherent(all) ==> Coherent(part)
  {
    hide Supported;
  }

  lemma EndKeepsInv(
    env: Environment, before: StoreDisk, intended: StoreDisk, after: StoreDisk, status: Status, possible: iset<Store>)
    requires Ends(env, before, intended, after, status)
    requires Inv(env, before, possible) && Inv(env, intended, possible)
    ensures Inv(env, after, possible) && (status == Stopped && env.steady ==> after.log == [])
  {
    hide Inv;
    if status == Stopped {
      if Halts(env, before, after) {
        HaltKeepsInv(env, before, after, possible);
      } else {
        HaltKeepsInv(env, intended, after, possible);
      }
    }
  }

  /** After a sync only one store is possible. */
  lemma SyncDecides(env: Environment, disk: StoreDisk, possible: iset<Store>)
    requires Inv(env, disk, possible)
    ensures Inv(env, disk.Synced(), iset{Contents(LiveView(disk))}) && Inv(env, disk.Synced(), possible)
    ensures LiveView(disk.Synced()) == LiveView(disk)
  {
    hide Contents, Solid, Coherent, Views, ViewOf, Replay, Remains, Bases;
    LiveIsPossible(env, disk, possible);
    LiveIsAmong(env, disk);
    OnlyOneView(env, disk.Synced());
    CoherentPart(AllViews(env, disk), {LiveView(disk)});
  }

  /** An operation that leaves every view as it is, wherever it may end up among what survives. */
  lemma InvisibleKeepsInv(env: Environment, disk: StoreDisk, op: Op<Name>, possible: iset<Store>)
    requires Inv(env, disk, possible)
    requires forall e | e in Bases(env, disk.durable, disk.log) ::
               Solid(Perform(e, op), disk.files) && ViewOf(Perform(e, op), disk.files) == ViewOf(e, disk.files)
    ensures Inv(env, disk.Issue(op), possible) && SameViews(env, disk, disk.Issue(op))
  {
    hide Contents, Solid, Coherent, ViewOf, Perform, Views, Bases, Remains, Replay;
    var next := disk.Issue(op);
    var bases, remains := Bases(env, disk.durable, disk.log), Remains(env, disk.durable, disk.log);
    RemainsIssue(env, disk.durable, disk.log, op);
    ReplayIssue(disk.durable, disk.log, op);
    LiveIsAmong(env, disk);
    LiveIsAmong(env, next);
    MoreViews(remains, bases, Remains(env, next.durable, next.log), disk.files, op);
    ViewsOf(bases, disk.files);
    assert AllViews(env, next) == AllViews(env, disk);
  }

  lemma ViewAfterTemporary(entries: Entries<Name>, files: map<nat, File<Record>>, op: Op<Name>)
    requires Solid(entries, files) && (op.Link? || op.Unlink?) && op.name.Temp?
    ensures Solid(Perform(entries, op), files) && ViewOf(Perform(entries, op), files) == ViewOf(entries, files)
  {
  }

  /** Temporary names do not matter. */
  lemma TemporaryKeepsInv(env: Environment, disk: StoreDisk, op: Op<Name>, possible: iset<Store>)
    requires Inv(env, disk, possible)
    requires (op.Link? || op.Unlink?) && op.name.Temp?
    ensures Inv(env, disk.Issue(op), possible) && SameViews(env, disk, disk.Issue(op))
  {
    hide Contents, Solid, ViewOf, Perform, Coherent, SameViews, Views;
    LiveIsAmong(env, disk);
    forall e | e in Bases(env, disk.durable, disk.log)
      ensures Solid(Perform(e, op), disk.files) && ViewOf(Perform(e, op), disk.files) == ViewOf(e, disk.files)
    {
      ViewAfterTemporary(e, disk.files, op);
    }
    InvisibleKeepsInv(env, disk, op, possible);
  }

  /** What an operation may leave, given what it does to each view. */
  lemma IssueKeepsInv(env: Environment, disk: StoreDisk, op: Op<Name>, possible: iset<Store>)
    requires Inv(env, disk, possible)
    requires forall e | e in Bases(env, disk.durable, disk.log) ::
               Solid(Perform(e, op), disk.files) && Contents(ViewOf(Perform(e, op), disk.files)) in possible
    requires !env.ordered ==> Coherent(AllViews(env, disk.Issue(op)))
    ensures Inv(env, disk.Issue(op), possible)
  {
    hide Contents, Solid, Coherent, ViewOf, Perform, Views, Bases, Remains, Replay;
    var bases, remains := Bases(env, disk.durable, disk.log), Remains(env, disk.durable, disk.log);
    RemainsIssue(env, disk.durable, disk.log, op);
    MoreViews(remains, bases, Remains(env, disk.Issue(op).durable, disk.Issue(op).log), disk.files, op);
  }

  /** A temporary file that has its name, if it has one at all, in whatever survives. */
  ghost predicate HasOneInode(env: Environment, disk: StoreDisk, n: nat, inode: nat) {
    forall e | e in Bases(env, disk.durable, disk.log) && Temp(n) in e :: e[Temp(n)] == inode
  }

  /** What a record may be published as: an index whose profiles are there whatever survives, or a
      profile under its own ID. */
  ghost predicate Supports(env: Environment, disk: StoreDisk, name: Name, record: Record) {
    match name
    case Index => record.IndexFile? && forall v | v in AllViews(env, disk) :: HasProfiles(v, record.snapshot.profiles)
    case Payload(id) => record.ProfileFile? && record.id == id
    case Temp(_) => false
  }

  ghost predicate Publishable(env: Environment, disk: StoreDisk, name: Name, record: Record, possible: iset<Store>) {
    && (forall v | v in BaseViews(env, disk) :: Contents(v[name := record]) in possible)
    && (!env.ordered ==> Supports(env, disk, name, record))
  }

  lemma ViewAfterRename(entries: Entries<Name>, files: map<nat, File<Record>>, n: nat, name: Name, inode: nat)
    requires Solid(entries, files) && !name.Temp? && inode in files && files[inode].synced
    requires Temp(n) in entries ==> entries[Temp(n)] == inode
    ensures var after := Perform(entries, Op.Rename(Temp(n), name));
            && Solid(after, files)
            && ViewOf(after, files)
               == if Temp(n) in entries then ViewOf(entries, files)[name := files[inode].data]
                  else ViewOf(entries, files)
  {
  }

  lemma ProfilesStay(view: View, name: Name, record: Record, profiles: seq<Summary>)
    requires HasProfiles(view, profiles) && (name.Payload? ==> record.ProfileFile? && record.id == name.id)
    ensures HasProfiles(view[name := record], profiles)
  {
    forall i | 0 <= i < |profiles| ensures HasProfile(view[name := record], profiles[i].id) {
      assert HasProfile(view, profiles[i].id);
    }
  }

  /** Publishing keeps the surviving views coherent. */
  lemma PublicationCoheres(all: set<View>, name: Name, record: Record)
    requires Coherent(all) && !name.Temp?
    requires name.Payload? ==> record.ProfileFile? && record.id == name.id
    requires name.Index? ==> record.IndexFile? && forall v | v in all :: HasProfiles(v, record.snapshot.profiles)
    ensures Coherent(all + set v | v in all :: v[name := record])
  {
    hide HasProfiles;
    var more := all + set v | v in all :: v[name := record];
    forall x, y | x in more && y in more ensures Supported(x, y) {
      var w := if y in all then y else var w :| w in all && y == w[name := record]; w;
      if x in all {
        assert Supported(x, w);
        StaysSupported(x, w, name, record);
      } else {
        var v :| v in all && x == v[name := record];
        assert Supported(v, w);
        if name.Index? {
          ProfilesStay(w, name, record, record.snapshot.profiles);
        } else {
          StaysSupported(v, w, name, record);
        }
      }
    }
  }

  lemma StaysSupported(v: View, w: View, name: Name, record: Record)
    requires Supported(v, w) && (name.Payload? ==> record.ProfileFile? && record.id == name.id)
    ensures Supported(v, w[name := record])
  {
    if Index in v && v[Index].IndexFile? {
      ProfilesStay(w, name, record, v[Index].snapshot.profiles);
    }
  }

  /** Renaming a synced temporary file publishes what it holds. */
  lemma PublishKeepsInv(env: Environment, disk: StoreDisk, n: nat, inode: nat, name: Name, possible: iset<Store>)
    requires Inv(env, disk, possible) && !name.Temp?
    requires inode in disk.files && disk.files[inode].synced && HasOneInode(env, disk, n, inode)
    requires Publishable(env, disk, name, disk.files[inode].data, possible)
    ensures Inv(env, disk.Issue(Op.Rename(Temp(n), name)), possible)
  {
    hide Contents, Solid, ViewOf, Perform, Coherent, HasProfiles, Views, Bases, Remains, Replay;
    var op, record := Op.Rename(Temp(n), name), disk.files[inode].data;
    var bases, remains := Bases(env, disk.durable, disk.log), Remains(env, disk.durable, disk.log);
    LiveIsAmong(env, disk);
    ViewsOf(bases, disk.files);
    forall e | e in bases
      ensures Solid(Perform(e, op), disk.files) && Contents(ViewOf(Perform(e, op), disk.files)) in possible
      ensures ViewOf(Perform(e, op), disk.files) in {ViewOf(e, disk.files), ViewOf(e, disk.files)[name := record]}
    {
      ViewAfterRename(e, disk.files, n, name, inode);
    }
    if !env.ordered {
      var published := AllViews(env, disk) + set v | v in AllViews(env, disk) :: v[name := record];
      PublicationCoheres(AllViews(env, disk), name, record);
      RemainsIssue(env, disk.durable, disk.log, op);
      MoreViews(remains, bases, Remains(env, disk.Issue(op).durable, disk.Issue(op).log), disk.files, op);
      CoherentPart(published, AllViews(env, disk.Issue(op)));
    }
    IssueKeepsInv(env, disk, op, possible);
  }

  lemma LiveAfterPublish(disk: StoreDisk, n: nat, name: Name)
    requires Solid(disk.Live(), disk.files) && !name.Temp? && Temp(n) in disk.Live()
    requires disk.Live()[Temp(n)] in disk.files && disk.files[disk.Live()[Temp(n)]].synced
    ensures LiveView(disk.Issue(Op.Rename(Temp(n), name)))
         == LiveView(disk)[name := disk.files[disk.Live()[Temp(n)]].data]
  {
    hide Solid, ViewOf, Perform;
    ReplayIssue(disk.durable, disk.log, Op.Rename(Temp(n), name));
    ViewAfterRename(disk.Live(), disk.files, n, name, disk.Live()[Temp(n)]);
  }

  lemma ViewAfterUnlink(entries: Entries<Name>, files: map<nat, File<Record>>, name: Name)
    requires Solid(entries, files)
    ensures var after := Perform(entries, Op.Unlink(name));
            Solid(after, files) && ViewOf(after, files) == ViewOf(entries, files) - {name}
  {
    assert forall other | other in entries - {name} :: other in entries && other != name;
  }

  lemma RemovalViews(env: Environment, disk: StoreDisk, id: string)
    requires Solid(disk.durable, disk.files) && disk.log == []
    ensures var next := disk.Issue(Op.Unlink(Payload(id)));
            && AllViews(env, next) <= {LiveView(disk), LiveView(disk) - {Payload(id)}}
            && LiveView(next) == LiveView(disk) - {Payload(id)}
    ensures forall e | e in Bases(env, disk.durable, disk.log) ::
              Solid(Perform(e, Op.Unlink(Payload(id))), disk.files)
              && ViewOf(Perform(e, Op.Unlink(Payload(id))), disk.files) == LiveView(disk) - {Payload(id)}
  {
    hide Solid, ViewOf, Views, Perform, Remains, Bases, Replay;
    var op := Op.Unlink(Payload(id));
    OnlyOneView(env, disk);
    ViewAfterUnlink(disk.durable, disk.files, Payload(id));
    assert disk.log + [op] == [op];
    RemainsAfterOne(env, disk.durable, op);
    TwoViews(disk.durable, Perform(disk.durable, op), disk.files);
  }

  lemma TwoViews(e: Entries<Name>, f: Entries<Name>, files: map<nat, File<Record>>)
    ensures Views({e, f}, files) == {ViewOf(e, files), ViewOf(f, files)}
  {
    hide ViewOf;
  }

  /** Removing a file that the index does not list, when nothing else is unsynced. */
  lemma RemovalKeepsInv(env: Environment, disk: StoreDisk, id: string, possible: iset<Store>)
    requires Inv(env, disk, possible) && disk.log == []
    requires Contents(LiveView(disk) - {Payload(id)}) in possible
    requires Index in LiveView(disk) && LiveView(disk)[Index].IndexFile? ==>
               !Lists(LiveView(disk)[Index].snapshot.profiles, id)
    ensures var next := disk.Issue(Op.Unlink(Payload(id)));
            Inv(env, next, possible) && LiveView(next) == LiveView(disk) - {Payload(id)}
  {
    hide Contents, Solid, Coherent, HasProfiles, ViewOf, Views, Perform, Bases, Replay;
    var op, view := Op.Unlink(Payload(id)), LiveView(disk);
    OnlyOneView(env, disk);
    RemovalViews(env, disk, id);
    if !env.ordered {
      RemovalCoheres(view, id);
      CoherentPart({view, view - {Payload(id)}}, AllViews(env, disk.Issue(op)));
    }
    IssueKeepsInv(env, disk, op, possible);
  }

  lemma RemovalCoheres(view: View, id: string)
    requires Coherent({view})
    requires Index in view && view[Index].IndexFile? ==> !Lists(view[Index].snapshot.profiles, id)
    ensures Coherent({view, view - {Payload(id)}})
  {
    var less := view - {Payload(id)};
    assert Supported(view, view);
    if Index in view && view[Index].IndexFile? {
      var profiles := view[Index].snapshot.profiles;
      forall i | 0 <= i < |profiles| ensures HasProfile(less, profiles[i].id) {
        assert HasProfile(view, profiles[i].id) && profiles[i].id != id;
      }
    }
  }

  // ------------------------------------------------------------------ what publishing changes

  /** A profile that no index lists is invisible. */
  lemma UnlistedIsInvisible(view: View, id: string, configuration: string)
    requires Contents(view).Present? ==> !Lists(Contents(view).snapshot.profiles, id)
    requires !Contents(view).Damaged?
    ensures Contents(view[Payload(id) := ProfileFile(id, configuration)]) == Contents(view)
    ensures Contents(view - {Payload(id)}) == Contents(view)
  {
    hide ValidSnapshot;
    var more, less := view[Payload(id) := ProfileFile(id, configuration)], view - {Payload(id)};
    if Contents(view).Present? {
      var profiles := Contents(view).snapshot.profiles;
      forall i | 0 <= i < |profiles|
        ensures HasProfile(more, profiles[i].id) && HasProfile(less, profiles[i].id)
      {
        assert HasProfile(view, profiles[i].id) && profiles[i].id != id;
      }
      assert Configurations(more, profiles) == Configurations(view, profiles);
      assert Configurations(less, profiles) == Configurations(view, profiles);
    }
  }

  /** What a view holds after an index is published in it. */
  lemma IndexDecides(view: View, hardware: string, snapshot: Snapshot, payloads: map<string, string>)
    requires ValidSnapshot(snapshot) && payloads.Keys == IDs(snapshot.profiles)
    requires forall id | Lists(snapshot.profiles, id) :: HasConfiguration(view, id, payloads[id])
    ensures Contents(view[Index := IndexFile(hardware, snapshot)]) == Present(hardware, snapshot, payloads)
  {
    hide ValidSnapshot;
    var next := view[Index := IndexFile(hardware, snapshot)];
    forall i | 0 <= i < |snapshot.profiles| ensures HasProfile(next, snapshot.profiles[i].id) {
      assert Lists(snapshot.profiles, snapshot.profiles[i].id);
      assert HasProfile(view, snapshot.profiles[i].id);
    }
    assert Configurations(next, snapshot.profiles) == payloads;
  }

  lemma ListedIsHad(view: View, id: string)
    requires Contents(view).Present? && Lists(Contents(view).snapshot.profiles, id)
    ensures id in Contents(view).payloads && HasConfiguration(view, id, Contents(view).payloads[id])
  {
    var profiles := Contents(view).snapshot.profiles;
    var i :| 0 <= i < |profiles| && profiles[i].id == id;
    assert HasProfile(view, profiles[i].id);
  }

  /** Which publication completes a change: the new profile comes before the index that lists it. */
  function WithNewProfile(view: View, s: Store, c: Change): View
    requires c.Clone? ==> s.Present? && c.sourceID in s.payloads
  {
    match c
    case Seed(_, p, configuration, _) => view[Payload(p.id) := ProfileFile(p.id, configuration)]
    case Clone(sourceID, p, _) => view[Payload(p.id) := ProfileFile(p.id, s.payloads[sourceID])]
    case _ => view
  }

  lemma NewProfileIsInvisible(view: View, c: Change)
    requires var s := Contents(view); Sound(s) && Permitted(s, c)
    ensures Contents(WithNewProfile(view, Contents(view), c)) == Contents(view)
  {
    hide ValidID, ValidName, NameInUse, Contents;
    match c
    case Seed(_, p, configuration, _) => UnlistedIsInvisible(view, p.id, configuration);
    case Clone(sourceID, p, _) => UnlistedIsInvisible(view, p.id, Contents(view).payloads[sourceID]);
    case _ =>
  }

  lemma WhereConfigurationsComeFrom(s: Store, c: Change, id: string)
    requires Sound(s) && Permitted(s, c) && !c.SaveActive?
    requires Changed(s, c).Present? && Lists(Changed(s, c).snapshot.profiles, id)
    ensures id in Changed(s, c).payloads
    ensures var configuration := Changed(s, c).payloads[id];
            if c.Seed? then id == c.profile.id && configuration == c.configuration
            else if c.Clone? && id == c.profile.id then
              c.sourceID in s.payloads && configuration == s.payloads[c.sourceID]
            else Lists(s.snapshot.profiles, id) && id in s.payloads && configuration == s.payloads[id]
  {
    hide ValidProfiles, UniqueNames, ValidName, ValidID, NameInUse, ChangedSnapshot;
    ChangedIsSound(s, c);
  }

  lemma ConfigurationIsThere(view: View, c: Change, id: string)
    requires var s := Contents(view); Sound(s) && Permitted(s, c) && !c.SaveActive?
    requires Changed(Contents(view), c).Present? && Lists(Changed(Contents(view), c).snapshot.profiles, id)
    ensures id in Changed(Contents(view), c).payloads
    ensures HasConfiguration(WithNewProfile(view, Contents(view), c), id, Changed(Contents(view), c).payloads[id])
  {
    hide ValidProfiles, UniqueNames, ValidName, ValidID, NameInUse, Contents, Changed;
    var s := Contents(view);
    assert c.Clone? ==> c.sourceID in s.payloads;
    assert c.Seed? || s.Present?;
    WhereConfigurationsComeFrom(s, c, id);
    if s.Present? && Lists(s.snapshot.profiles, id) {
      ListedIsHad(view, id);
    }
  }

  lemma ChangedIsComplete(s: Store, c: Change)
    requires Sound(s) && Permitted(s, c)
    ensures var next := Changed(s, c);
            next.Present? && ValidSnapshot(next.snapshot) && next.payloads.Keys == IDs(next.snapshot.profiles)
    ensures c.Clone? ==> s.Present? && c.sourceID in s.payloads
  {
    hide ValidProfiles, UniqueNames, ValidName, ValidID, NameInUse, ChangedSnapshot;
    ChangedIsSound(s, c);
  }

  lemma IndexCompletes(view: View, c: Change)
    requires var s := Contents(view); Sound(s) && Permitted(s, c) && !c.SaveActive?
    ensures var next := Changed(Contents(view), c);
            && next.Present?
            && Contents(WithNewProfile(view, Contents(view), c)[Index := IndexFile(next.hardware, next.snapshot)])
                 == next
  {
    hide Permitted, Sound, Contents, Changed, ValidSnapshot, HasProfile, HasConfiguration, WithNewProfile, Lists, IDs;
    var s := Contents(view);
    ChangedIsComplete(s, c);
    var next, extended := Changed(s, c), WithNewProfile(view, s, c);
    forall id | Lists(next.snapshot.profiles, id)
      ensures HasConfiguration(extended, id, next.payloads[id])
    {
      ConfigurationIsThere(view, c, id);
    }
    IndexDecides(extended, next.hardware, next.snapshot, next.payloads);
  }

  lemma SavingCompletes(view: View, configuration: string)
    requires var s := Contents(view); s.Present? && Sound(s)
    ensures var s := Contents(view); var id := s.snapshot.activeID;
            Contents(view[Payload(id) := ProfileFile(id, configuration)]) == Changed(s, SaveActive(configuration))
  {
    hide ValidProfiles, UniqueNames;
    var s := Contents(view);
    var id, profiles := s.snapshot.activeID, s.snapshot.profiles;
    var next := view[Payload(id) := ProfileFile(id, configuration)];
    forall i | 0 <= i < |profiles| ensures HasProfile(next, profiles[i].id) {
      assert HasProfile(view, profiles[i].id);
    }
    assert id in IDs(profiles);
    assert Configurations(next, profiles) == s.payloads[id := configuration];
  }

  // ------------------------------------------------------------------ what loading checks

  predicate CheckedUpTo(view: View, s: Snapshot, i: nat)
    requires i <= |s.profiles|
  {
    && (forall j | 0 <= j < i :: ValidID(s.profiles[j].id) && ValidName(s.profiles[j].name))
    && HasProfiles(view, s.profiles[..i])
    && UniqueIDs(s.profiles[..i])
  }

  lemma OneMoreListed(profiles: seq<Summary>, i: nat)
    requires i < |profiles|
    ensures forall id :: Lists(profiles[..i + 1], id) <==> id == profiles[i].id || Lists(profiles[..i], id)
    ensures IDs(profiles[..i + 1]) == IDs(profiles[..i]) + {profiles[i].id}
    ensures Lists(profiles[..i], profiles[i].id) ==> !UniqueIDs(profiles)
    ensures UniqueIDs(profiles[..i]) && !Lists(profiles[..i], profiles[i].id) ==> UniqueIDs(profiles[..i + 1])
  {
    assert profiles[..i + 1] == profiles[..i] + [profiles[i]];
    forall id ensures Lists(profiles[..i + 1], id) <==> id == profiles[i].id || Lists(profiles[..i], id) {
      assert profiles[..i + 1][i].id == profiles[i].id;
      if Lists(profiles[..i], id) {
        var j :| 0 <= j < i && profiles[..i][j].id == id;
        assert profiles[..i + 1][j].id == id;
      }
    }
    if Lists(profiles[..i], profiles[i].id) {
      var j :| 0 <= j < i && profiles[..i][j].id == profiles[i].id;
      assert profiles[j].id == profiles[i].id;
    }
  }

  predicate PassesCheck(view: View, s: Snapshot, i: nat)
    requires i < |s.profiles|
  {
    var p := s.profiles[i];
    ValidID(p.id) && ValidName(p.name) && !Lists(s.profiles[..i], p.id) && HasProfile(view, p.id)
  }

  lemma CheckStarts(view: View, s: Snapshot)
    ensures CheckedUpTo(view, s, 0)
  {
  }

  lemma CheckStep(view: View, s: Snapshot, i: nat)
    requires i < |s.profiles| && CheckedUpTo(view, s, i)
    ensures PassesCheck(view, s, i) ==> CheckedUpTo(view, s, i + 1)
    ensures !PassesCheck(view, s, i) ==> !ValidSnapshot(s) || !HasProfiles(view, s.profiles)
  {
    hide ValidID, ValidName, HasProfile;
    OneMoreListed(s.profiles, i);
  }

  lemma CheckEnds(view: View, s: Snapshot)
    requires CheckedUpTo(view, s, |s.profiles|) && s.profiles != []
    ensures ValidProfiles(s.profiles) && HasProfiles(view, s.profiles)
  {
    assert s.profiles[..|s.profiles|] == s.profiles;
  }

  // ------------------------------------------------------------------ the store

  datatype Outcome =
    | Done
    | NotExist
    | Invalid
    | Incompatible
    | Duplicate
    | Protected
    | Error // input or output failed; the change may have been published all the same
    | Interrupted // the machine lost power or the program was killed
  {
    predicate Refusal() {
      NotExist? || Invalid? || Incompatible? || Duplicate? || Protected?
    }
  }

  function OutcomeOf(status: Status): Outcome {
    match status
    case OK => Done
    case NotFound => NotExist
    case Failed => Error
    case Stopped => Interrupted
  }

  /** The store after a change that is completed if it is permitted. */
  ghost function After(s: Store, c: Change): Store {
    if Sound(s) && Permitted(s, c) then Changed(s, c) else s
  }

  ghost predicate AllSound(possible: iset<Store>) {
    forall s | s in possible :: Sound(s)
  }

  /** Why a change of this caller's store is refused, in the order in which the program checks. */
  function RefusalOf(s: Snapshot, c: Change): Outcome {
    match c
    case Clone(_, p, _) => if ValidName(p.name) && NameInUse(s.profiles, p.name, "") then Duplicate else Invalid
    case Rename(id, name) => if ValidName(name) && Lists(s.profiles, id) then Duplicate else Invalid
    case Delete(id) => if Lists(s.profiles, id) then Protected else Invalid
    case _ => Invalid
  }

  /** Which refusal: a name that is taken, a profile that is protected, and everything else. */
  lemma RefusalsAre(s: Snapshot, c: Change)
    ensures RefusalOf(s, c) == Duplicate <==>
              || (c.Rename? && ValidName(c.name) && exists i :: 0 <= i < |s.profiles| && s.profiles[i].id == c.id)
              || (c.Clone? && ValidName(c.profile.name)
                  && exists i ::
                       0 <= i < |s.profiles| && s.profiles[i].name == c.profile.name && s.profiles[i].id != "")
    ensures RefusalOf(s, c) == Protected <==> c.Delete? && exists i :: 0 <= i < |s.profiles| && s.profiles[i].id == c.id
    ensures RefusalOf(s, c) in {Duplicate, Protected, Invalid}
  {
    hide ValidName;
  }

  /** How a call that meant to make a change leaves the store, unless it is interrupted. `bound` says
      whether the store was the one of the caller's hardware profile. */
  ghost predicate Settles(before: Store, c: Change, bound: bool, now: Store, outcome: Outcome) {
    && (outcome == Done ==> bound && Sound(before) && Permitted(before, c) && now == Changed(before, c))
    && (outcome.Refusal() ==>
          && now == before && !(bound && Permitted(before, c))
          && (bound && before.Present? ==> outcome == RefusalOf(before.snapshot, c)))
    && (outcome == Error ==> now == before || now == After(before, c))
  }

  /** Once everything is synced only one store is possible. */
  lemma QuietDecides(env: Environment, disk: StoreDisk, possible: iset<Store>)
    requires Inv(env, disk, possible) && disk.log == []
    ensures Inv(env, disk, iset{Contents(LiveView(disk))})
  {
    hide Contents, Solid, Coherent;
    OnlyOneView(env, disk);
  }

  lemma LiveIsSound(env: Environment, disk: StoreDisk, possible: iset<Store>)
    requires Inv(env, disk, possible) && AllSound(possible)
    ensures Sound(Contents(LiveView(disk))) && Contents(LiveView(disk)) in possible
  {
    hide Inv, Sound;
    LiveIsPossible(env, disk, possible);
  }

  /** Nothing can be lost of a directory that was never made. */
  lemma EmptyHalts(env: Environment, before: StoreDisk, after: StoreDisk)
    requires Halts(env, before, after)
    ensures before.durable == map[] && before.log == [] ==> after.durable == map[] && after.log == []
    ensures env.steady ==> after.log == []
  {
    if PowerLoss(env, before, after) && before.log == [] {
      var kept :| Survives(env, kept, before.log) && after.durable == Replay(before.durable, kept);
      NothingUnsynced(env, kept);
    }
  }

  /** Changes of the index alone. */
  lemma IndexOfChange(s: Store, c: Change)
    requires s.Present? && Sound(s) && Permitted(s, c) && (c.Rename? || c.Switch? || c.DismissNotice?)
    ensures Changed(s, c) == Present(s.hardware, ChangedSnapshot(s.snapshot, c), s.payloads)
  {
  }

  const AUTOMATIC_NAME := "Automatic profile"

  lemma ListedIsValid(view: View, id: string)
    requires Contents(view).Present? && Lists(Contents(view).snapshot.profiles, id)
    ensures ValidID(id)
  {
  }

  lemma CloneOfIndex(s: Store, c: Change)
    requires s.Present? && Sound(s) && Permitted(s, c) && c.Clone?
    ensures Changed(s, c).Present? && Changed(s, c).hardware == s.hardware
    ensures Changed(s, c).snapshot
         == Snapshot(s.snapshot.profiles + [c.profile],
                     if c.activate then c.profile.id else s.snapshot.activeID, s.snapshot.notice)
    ensures c.sourceID in s.payloads
  {
  }

  lemma SeedOfIndex(c: Change)
    requires c.Seed? && Permitted(Absent, c)
    ensures Changed(Absent, c).Present? && Changed(Absent, c).hardware == c.hardware
    ensures Changed(Absent, c).snapshot == Snapshot([c.profile], c.profile.id, c.notice)
  {
  }

  lemma DeletionOfIndex(s: Store, id: string)
    requires s.Present? && Sound(s) && Permitted(s, Delete(id))
    ensures var next := Changed(s, Delete(id)); var position := Position(s.snapshot.profiles, id);
            && next.Present? && next.hardware == s.hardware
            && next.snapshot
               == s.snapshot.(profiles := s.snapshot.profiles[..position] + s.snapshot.profiles[position + 1..])
            && !Lists(next.snapshot.profiles, id)
  {
    hide ValidProfiles, UniqueNames, Position;
    DeletedIsSound(s.snapshot.profiles, id);
  }

  lemma AutomaticNameIsValid()
    ensures ValidName(AUTOMATIC_NAME)
  {
  }

  /** The last profile and the active one cannot be deleted. */
  predicate Protects(s: Store, id: string) {
    s.Present? && Lists(s.snapshot.profiles, id) && (|s.snapshot.profiles| == 1 || s.snapshot.activeID == id)
  }

  lemma UnmadeIsAbsent(disk: StoreDisk)
    ensures disk.durable == map[] && disk.log == [] ==> Contents(LiveView(disk)) == Absent
  {
  }

  // ------------------------------------------------------------------ what a change may leave

  /** Whatever survives of the unsynced operations before the next one, it is the store of the moment. On
      an ordered disk that is always so, on another one after every success. */
  predicate Quiet(env: Environment, disk: StoreDisk) {
    forall v | v in BaseViews(env, disk) :: Contents(v) == Contents(LiveView(disk))
  }

  /** The configuration is that of a surviving file or of the store that a call is to lead to. */
  ghost predicate Known(env: Environment, disk: StoreDisk, after: Store, id: string, configuration: string) {
    || (after.Present? && id in after.payloads && after.payloads[id] == configuration)
    || exists v | v in AllViews(env, disk) :: HasConfiguration(v, id, configuration)
  }

  /** The index is one of those that were possible or the new one, with configurations that are known. */
  ghost predicate Mixes(env: Environment, disk: StoreDisk, possible: iset<Store>, after: Store, s: Store)
    requires s.Present?
  {
    && (exists t | t in possible || t == after :: SameIndex(s, t))
    && forall id | id in s.payloads :: Known(env, disk, after, id, s.payloads[id])
  }

  /** The stores that may be found after a call that was to lead to `after`: only that one is new. When
      unsynced operations of failed calls may survive in any order, its index and its configurations may
      also be found apart. */
  ghost function Outcomes(env: Environment, disk: StoreDisk, possible: iset<Store>, after: Store): iset<Store> {
    possible + iset{after}
    + if Quiet(env, disk) then iset{} else iset s: Store | s.Present? && Mixes(env, disk, possible, after, s)
  }

  lemma SameIndexIsSound(s: Store, t: Store)
    requires SameIndex(s, t) && Sound(t)
    ensures Sound(s)
  {
  }

  lemma IndexMixes(
    env: Environment, disk: StoreDisk, possible: iset<Store>, after: Store, view: View)
    requires view in AllViews(env, disk) && after.Present? && Sound(after) && HasProfiles(view, after.snapshot.profiles)
    ensures var s := Contents(view[Index := IndexFile(after.hardware, after.snapshot)]);
            s.Present? && Mixes(env, disk, possible, after, s)
  {
    hide ValidSnapshot, UniqueNames, AllViews;
    ProfilesStay(view, Index, IndexFile(after.hardware, after.snapshot), after.snapshot.profiles);
    var s := Contents(view[Index := IndexFile(after.hardware, after.snapshot)]);
    assert SameIndex(s, after);
    forall id | id in s.payloads ensures Known(env, disk, after, id, s.payloads[id]) {
      var i :| 0 <= i < |after.snapshot.profiles| && after.snapshot.profiles[i].id == id;
      assert HasProfile(view, after.snapshot.profiles[i].id);
      assert HasConfiguration(view, id, s.payloads[id]);
    }
  }

  lemma ConfigurationMixes(
    env: Environment, disk: StoreDisk, possible: iset<Store>, after: Store, view: View, id: string,
    configuration: string)
    requires view in AllViews(env, disk) && Contents(view) in possible && Sound(Contents(view))
    requires after.Present? && id in after.payloads && after.payloads[id] == configuration
    ensures var s := Contents(view[Payload(id) := ProfileFile(id, configuration)]);
            s in possible || (s.Present? && Mixes(env, disk, possible, after, s))
  {
    hide ValidSnapshot, AllViews;
    var s, t := Contents(view[Payload(id) := ProfileFile(id, configuration)]), Contents(view);
    if t.Present? {
      var profiles := t.snapshot.profiles;
      ProfilesStay(view, Payload(id), ProfileFile(id, configuration), profiles);
      assert SameIndex(s, t);
      forall other | other in s.payloads ensures Known(env, disk, after, other, s.payloads[other]) {
        if other != id {
          var i :| 0 <= i < |profiles| && profiles[i].id == other;
          assert HasProfile(view, profiles[i].id);
          assert HasConfiguration(view, other, s.payloads[other]);
        }
      }
    }
  }

  lemma OrderedIsQuiet(env: Environment, disk: StoreDisk)
    ensures env.ordered || disk.log == [] ==> Quiet(env, disk)
  {
    hide Contents, Views, ViewOf, Bases, Remains;
    LiveIsAmong(env, disk);
    if disk.log == [] {
      OnlyOneView(env, disk);
    }
  }

  lemma OutcomesInclude(env: Environment, disk: StoreDisk, possible: iset<Store>, c: Change)
    requires Inv(env, disk, possible) && AllSound(possible)
    ensures var s := Contents(LiveView(disk)); var all := Outcomes(env, disk, possible, After(s, c));
            && Inv(env, disk, all) && AllSound(all)
            && s in possible && s in all && Sound(s)
            && (Permitted(s, c) ==> Changed(s, c) in all && Sound(Changed(s, c)))
  {
    hide Inv, Sound, Permitted, Changed, Contents, Quiet, SameIndex, Known;
    var s := Contents(LiveView(disk));
    LiveIsSound(env, disk, possible);
    if Permitted(s, c) {
      ChangedIsSound(s, c);
    }
    var all := Outcomes(env, disk, possible, After(s, c));
    forall mixed | mixed in all ensures Sound(mixed) {
      if mixed !in possible && mixed != After(s, c) {
        var t :| (t in possible || t == After(s, c)) && SameIndex(mixed, t);
        SameIndexIsSound(mixed, t);
      }
    }
    MorePossible(env, disk, possible, all);
  }

  lemma PresentIsSupported(view: View, other: View)
    requires Supported(view, other) && Contents(view).Present?
    ensures HasProfiles(other, Contents(view).snapshot.profiles)
  {
  }

  /** A change of the index that lists no new profile. */
  predicate OfIndex(c: Change) {
    c.Rename? || c.Switch? || c.DismissNotice? || c.Delete?
  }

  lemma NoNewProfiles(s: Store, c: Change, view: View)
    requires s.Present? && Sound(s) && Permitted(s, c) && OfIndex(c) && HasProfiles(view, s.snapshot.profiles)
    ensures Changed(s, c).Present? && HasProfiles(view, Changed(s, c).snapshot.profiles)
  {
    hide ValidProfiles, UniqueNames, ValidName, ValidID, NameInUse, ChangedSnapshot, HasProfile;
    ChangedIsComplete(s, c);
    var next := Changed(s, c).snapshot.profiles;
    forall i | 0 <= i < |next| ensures HasProfile(view, next[i].id) {
      assert Lists(next, next[i].id);
      WhereConfigurationsComeFrom(s, c, next[i].id);
      var j :| 0 <= j < |s.snapshot.profiles| && s.snapshot.profiles[j].id == next[i].id;
      assert HasProfile(view, s.snapshot.profiles[j].id);
    }
  }

  lemma IndexIsPublishable(env: Environment, disk: StoreDisk, possible: iset<Store>, c: Change)
    requires Inv(env, disk, possible) && AllSound(possible)
    requires var s := Contents(LiveView(disk)); s.Present? && Sound(s) && Permitted(s, c) && OfIndex(c)
    ensures var s := Contents(LiveView(disk)); var next := Changed(s, c);
            next.Present?
            && Publishable(env, disk, Index, IndexFile(next.hardware, next.snapshot),
                 Outcomes(env, disk, possible, After(s, c)))
  {
    hide Contents, Changed, Permitted, Sound, ValidSnapshot, HasProfiles, Views, Bases, Remains, Solid, Supported;
    var view := LiveView(disk);
    var s := Contents(view);
    LiveIsAmong(env, disk);
    IndexCompletes(view, c);
    ChangedIsSound(s, c);
    var next := Changed(s, c);
    SoundParts(next);
    forall v | v in AllViews(env, disk) ensures !env.ordered ==> HasProfiles(v, next.snapshot.profiles) {
      if !env.ordered {
        assert Supported(view, v);
        PresentIsSupported(view, v);
        NoNewProfiles(s, c, v);
      }
    }
    forall v | v in BaseViews(env, disk)
      ensures Contents(v[Index := IndexFile(next.hardware, next.snapshot)])
              in Outcomes(env, disk, possible, After(s, c))
    {
      if Quiet(env, disk) {
        IndexCompletes(v, c);
      } else {
        OrderedIsQuiet(env, disk);
        IndexMixes(env, disk, possible, next, v);
      }
    }
  }

  lemma SoundParts(s: Store)
    ensures s.Present? && Sound(s) ==> ValidSnapshot(s.snapshot) && UniqueNames(s.snapshot.profiles)
  {
  }

  lemma SaveIsPublishable(env: Environment, disk: StoreDisk, possible: iset<Store>, configuration: string)
    requires Inv(env, disk, possible) && AllSound(possible)
    requires var s := Contents(LiveView(disk)); s.Present? && Sound(s)
    ensures var s := Contents(LiveView(disk)); var id := s.snapshot.activeID;
            Publishable(env, disk, Payload(id), ProfileFile(id, configuration),
                        Outcomes(env, disk, possible, After(s, SaveActive(configuration))))
  {
    hide Contents, Changed, Sound, ValidSnapshot, HasProfiles, Views, Bases, Remains, Solid, Coherent;
    var s := Contents(LiveView(disk));
    var id := s.snapshot.activeID;
    LiveIsAmong(env, disk);
    forall v | v in BaseViews(env, disk)
      ensures Contents(v[Payload(id) := ProfileFile(id, configuration)])
              in Outcomes(env, disk, possible, After(s, SaveActive(configuration)))
    {
      if Quiet(env, disk) {
        SavingCompletes(v, configuration);
      } else {
        SavedAfter(s, configuration);
        ConfigurationMixes(env, disk, possible, Changed(s, SaveActive(configuration)), v, id, configuration);
      }
    }
  }

  /** The configuration of a new profile. */
  predicate Configures(s: Store, c: Change, configuration: string) {
    match c
    case Seed(_, _, seed, _) => configuration == seed
    case Clone(sourceID, _, _) => s.Present? && sourceID in s.payloads && configuration == s.payloads[sourceID]
    case _ => false
  }

  lemma SavedAfter(s: Store, configuration: string)
    requires s.Present? && Sound(s)
    ensures var after := Changed(s, SaveActive(configuration)); var id := s.snapshot.activeID;
            after.Present? && id in after.payloads && after.payloads[id] == configuration
  {
  }

  lemma ConfiguresAfter(s: Store, c: Change, configuration: string)
    requires Sound(s) && Permitted(s, c) && Configures(s, c, configuration)
    ensures var after := Changed(s, c);
            after.Present? && c.profile.id in after.payloads && after.payloads[c.profile.id] == configuration
  {
  }

  lemma ProfileIsPublishable(
    env: Environment, disk: StoreDisk, possible: iset<Store>, c: Change, all: iset<Store>, configuration: string)
    requires Inv(env, disk, possible) && AllSound(possible)
    requires var s := Contents(LiveView(disk)); Sound(s) && Permitted(s, c) && Configures(s, c, configuration)
    requires all == Outcomes(env, disk, possible, After(Contents(LiveView(disk)), c))
    ensures Publishable(env, disk, Payload(c.profile.id), ProfileFile(c.profile.id, configuration), all)
  {
    hide Contents, Changed, Sound, ValidSnapshot, HasProfiles, Views, Bases, Remains, Solid, Coherent, ValidName,
      ValidID, NameInUse;
    LiveIsAmong(env, disk);
    var s, id := Contents(LiveView(disk)), c.profile.id;
    forall v | v in BaseViews(env, disk) ensures Contents(v[Payload(id) := ProfileFile(id, configuration)]) in all {
      if Quiet(env, disk) {
        UnlistedIsInvisible(v, id, configuration);
      } else {
        ConfiguresAfter(s, c, configuration);
        ConfigurationMixes(env, disk, possible, Changed(s, c), v, id, configuration);
      }
    }
  }

  /** The index that lists a new profile, once nothing is unsynced and the profile is there. */
  lemma NewIndexIsPublishable(env: Environment, disk: StoreDisk, view: View, c: Change, all: iset<Store>)
    requires disk.log == [] && (c.Seed? || c.Clone?)
    requires var s := Contents(view); Sound(s) && Permitted(s, c) && Changed(s, c) in all
    requires c.Clone? ==> c.sourceID in Contents(view).payloads
    requires LiveView(disk) == WithNewProfile(view, Contents(view), c)
    ensures var next := Changed(Contents(view), c);
            next.Present? && Publishable(env, disk, Index, IndexFile(next.hardware, next.snapshot), all)
  {
    hide Changed, Sound, Permitted, ValidSnapshot, HasProfile, Views, Bases, Remains, Solid, Coherent, WithNewProfile;
    OnlyOneView(env, disk);
    IndexCompletes(view, c);
    var next, live := Changed(Contents(view), c), LiveView(disk);
    var published := live[Index := IndexFile(next.hardware, next.snapshot)];
    assert HasProfiles(published, next.snapshot.profiles);
    forall i | 0 <= i < |next.snapshot.profiles| ensures HasProfile(live, next.snapshot.profiles[i].id) {
      assert HasProfile(published, next.snapshot.profiles[i].id);
      SameProfile(live, IndexFile(next.hardware, next.snapshot), next.snapshot.profiles[i].id);
    }
  }

  lemma IndexOf(view: View)
    requires !Contents(view).Damaged? && Index in view
    ensures Contents(view).Present? && view[Index].IndexFile? && view[Index].snapshot == Contents(view).snapshot
  {
  }

  lemma SameProfile(view: View, index: Record, id: string)
    ensures HasProfile(view[Index := index], id) == HasProfile(view, id)
  {
  }

  datatype Entry = Here

  predicate OnlyMade(log: seq<Op<Entry>>) {
    forall i | 0 <= i < |log| :: log[i] == Link(Here, 0)
  }

  /** Nobody syncs the parent, so the new directory and all that is in it may be gone after a loss of power:
      it is safe exactly if its entry was durable before. */
  lemma NewDirectoryMayVanish(env: Environment, parent: Disk<Entry, ()>)
    requires OnlyMade(parent.log)
    ensures (exists kept :: Survives(env, kept, parent.log) && Here !in Replay(parent.durable, kept))
       <==> Here !in parent.durable
  {
    if Here in parent.durable {
      MadeStays(env, parent.durable, parent.log);
      forall kept | Survives(env, kept, parent.log) ensures Here in Replay(parent.durable, kept) {
        SurvivorRemains(env, parent.durable, kept, parent.log);
      }
    } else {
      NothingSurvives(env, parent.log);
      assert Replay(parent.durable, []) == parent.durable;
    }
  }

  lemma MadeIsThere(parent: Disk<Entry, ()>)
    requires OnlyMade(parent.log)
    ensures var next := parent.Issue(Link(Here, 0)); OnlyMade(next.log) && Here in next.Live()
  {
    ReplayIssue(parent.durable, parent.log, Link(Here, 0));
  }

  lemma {:induction false} MadeStays(env: Environment, durable: Entries<Entry>, log: seq<Op<Entry>>)
    requires Here in durable && OnlyMade(log)
    ensures forall e | e in Remains(env, durable, log) :: Here in e
  {
    if log != [] {
      MadeStays(env, durable, log[..|log| - 1]);
      BasesRemain(env, durable, log[..|log| - 1]);
    }
  }

  lemma {:induction false} NothingSurvives(env: Environment, log: seq<Op<Entry>>)
    ensures Survives(env, [], log)
  {
    if log != [] {
      NothingSurvives(env, log[..|log| - 1]);
    }
  }

  /** The name occurs in the durable entries or in an operation since. */
  predicate Mentions(durable: Entries<Name>, log: seq<Op<Name>>, name: Name) {
    || name in durable
    || exists i | 0 <= i < |log| ::
         match log[i]
         case Link(n, _) => n == name
         case Unlink(n) => n == name
         case Rename(source, target) => source == name || target == name
  }

  lemma {:induction false} NotMentioned(env: Environment, durable: Entries<Name>, log: seq<Op<Name>>, name: Name)
    requires !Mentions(durable, log, name)
    ensures forall e | e in Bases(env, durable, log) :: name !in e
  {
    if log != [] {
      var front, last := log[..|log| - 1], log[|log| - 1];
      NotMentioned(env, durable, front, name);
      assert !Mentions(durable, [last], name);
      BasesRemain(env, durable, front);
      assert log == front + [last];
      RemainsIssue(env, durable, front, last);
    }
  }

  lemma NewNameHasOneInode(env: Environment, disk: StoreDisk, n: nat, inode: nat)
    requires !Mentions(disk.durable, disk.log, Temp(n))
    ensures HasOneInode(env, disk.Issue(Link(Temp(n), inode)), n, inode)
  {
    NotMentioned(env, disk.durable, disk.log, Temp(n));
    RemainsIssue(env, disk.durable, disk.log, Link(Temp(n), inode));
  }

  class ProfileStore {
    const directory: Directory<Name, Record>
    var made: bool

    /** The entry of the directory in its parent. */
    ghost var parent: Disk<Entry, ()>

    ghost predicate Valid()
      reads this, directory
    {
      && (!made ==> directory.disk.durable == map[] && directory.disk.log == [])
      && (made <==> Here in parent.Live()) && OnlyMade(parent.log)
    }

    ghost predicate Leaves(possible: iset<Store>)
      reads directory
    {
      Inv(directory.env, directory.disk, possible)
    }

    /** Under steady circumstances nothing is unsynced after the program was stopped. */
    ghost predicate Rests()
      reads directory
    {
      directory.env.steady ==> directory.disk.log == []
    }

    ghost function Current(): Store
      reads directory
    {
      Contents(LiveView(directory.disk))
    }

    /** The program uses the store of one hardware profile. */
    ghost predicate Bound(binding: string)
      reads directory
    {
      !Text.Blank(binding) && Current().Present? && Current().hardware == binding
    }

    /** A directory that does not exist yet. */
    constructor (directory: Directory<Name, Record>)
      requires directory.disk.durable == map[] && directory.disk.log == []
      ensures this.directory == directory && !made && Valid() && Here !in parent.durable
      ensures Current() == Absent && Leaves(iset{Absent})
    {
      this.directory, made, parent := directory, false, Disk(map[], [], map[]);
    }

    // ---------------------------------------------------------------- reading

    method ReadFile(name: Name) returns (record: Record, status: Status)
      modifies directory
      ensures Ends(directory.env, old(directory.disk), old(directory.disk), directory.disk, status)
      ensures status == OK ==> name in LiveView(directory.disk) && record == LiveView(directory.disk)[name]
      ensures status == NotFound ==> name !in LiveView(directory.disk)
    {
      record := Unreadable;
      var found;
      found, status := directory.Exists(name);
      if status == OK {
        if !found {
          status := NotFound;
        } else if name.Temp? || directory.disk.Live()[name] !in directory.disk.files {
          status := Failed;
        } else {
          record := directory.disk.files[directory.disk.Live()[name]].data;
        }
      }
    }

    method ReadLocalProfile(id: string) returns (configuration: string, outcome: Outcome)
      modifies directory
      ensures outcome == Interrupted || directory.disk == old(directory.disk)
      ensures outcome == Interrupted ==> Halts(directory.env, old(directory.disk), directory.disk)
      ensures outcome == Done ==>
                && ValidID(id) && HasProfile(LiveView(directory.disk), id)
                && configuration == LiveView(directory.disk)[Payload(id)].configuration
      ensures outcome.Refusal() ==> !ValidID(id) || !HasProfile(LiveView(directory.disk), id)
      ensures outcome != Duplicate && outcome != Protected
    {
      configuration := "";
      if !ValidID(id) {
        return "", Invalid;
      }
      var record, status := ReadFile(Payload(id));
      if status != OK {
        return "", OutcomeOf(status);
      }
      if !record.ProfileFile? || record.id != id {
        return "", Invalid;
      }
      return record.configuration, Done;
    }

    /** Loads the index and checks it and every profile it lists. */
    method Load(binding: string) returns (snapshot: Snapshot, outcome: Outcome)
      modifies directory
      ensures outcome == Interrupted || directory.disk == old(directory.disk)
      ensures outcome == Interrupted ==> Halts(directory.env, old(directory.disk), directory.disk)
      ensures outcome == Done ==> Bound(binding) && snapshot == Current().snapshot
      ensures outcome.Refusal() ==> !Bound(binding)
      ensures outcome != Duplicate && outcome != Protected
      ensures outcome == Invalid || outcome == Incompatible ==> Text.Blank(binding) || !Current().Absent?
    {
      hide Inv, Halts, ValidName, ValidID, LiveView, CheckedUpTo, HasProfiles, HasProfile, ValidProfiles, UniqueIDs;
      snapshot := Snapshot([], "", "");
      if Text.Blank(binding) {
        return snapshot, Invalid;
      }
      var record, status := ReadFile(Index);
      if status != OK {
        return snapshot, OutcomeOf(status);
      }
      if !record.IndexFile? {
        return snapshot, Invalid;
      }
      snapshot := record.snapshot;
      if record.hardware != binding || snapshot.profiles == [] {
        return snapshot, Incompatible;
      }
      ghost var view := LiveView(directory.disk);
      CheckStarts(view, snapshot);
      var seen: set<string> := {};
      var active := false;
      for i := 0 to |snapshot.profiles|
        invariant directory.disk == old(directory.disk)
        invariant CheckedUpTo(view, snapshot, i)
        invariant seen == IDs(snapshot.profiles[..i])
        invariant active == Lists(snapshot.profiles[..i], snapshot.activeID)
      {
        var p := snapshot.profiles[i];
        OneMoreListed(snapshot.profiles, i);
        CheckStep(view, snapshot, i);
        if !ValidID(p.id) || !ValidName(p.name) || p.id in seen {
          return snapshot, Invalid;
        }
        seen := seen + {p.id};
        if p.id == snapshot.activeID {
          active := true;
        }
        var _, read := ReadLocalProfile(p.id);
        if read != Done {
          return snapshot, read;
        }
      }
      CheckEnds(view, snapshot);
      assert snapshot.profiles[..|snapshot.profiles|] == snapshot.profiles;
      return snapshot, if active then Done else Invalid;
    }

    // ---------------------------------------------------------------- writing

    /** Creates the directory if it is not there. The parent is never synced. */
    method MakeDirectory(ghost possible: iset<Store>) returns (status: Status)
      requires Valid() && Leaves(possible)
      modifies this, directory
      ensures Valid() && Leaves(possible) && parent.durable == old(parent.durable)
      ensures status == Stopped ==> Rests()
      ensures old(made) || status == OK ==> made
      ensures status != Stopped ==> directory.disk == old(directory.disk)
      ensures |directory.calls| == |old(directory.calls)| + 1
    {
      hide Inv, Replay, OnlyMade, Halts;
      ghost var before := directory.disk;
      status := directory.Other();
      EndKeepsInv(directory.env, before, before, directory.disk, status, possible);
      if status == Stopped {
        EmptyHalts(directory.env, before, directory.disk);
      }
      if !made {
        var there: bool := *;
        if status == OK || there {
          MadeIsThere(parent);
          parent := parent.Issue(Link(Here, 0));
          made := true;
        }
      }
    }

    /** Creates a temporary file and writes a record into it, durably. A random name that is drawn again
        while it is unsynced counts as a failure. */
    method FillTemp(n: nat, record: Record, ghost possible: iset<Store>) returns (created: bool, status: Status)
      requires Valid() && made && Leaves(possible)
      modifies directory
      ensures Valid() && Leaves(possible)
      ensures status == Stopped ==> Rests()
      ensures status != Stopped ==> SameViews(directory.env, old(directory.disk), directory.disk)
      ensures status == OK ==>
                && created && Temp(n) in directory.disk.Live()
                && var inode := directory.disk.Live()[Temp(n)];
                   && inode in directory.disk.files && directory.disk.files[inode] == File(record, true)
                   && HasOneInode(directory.env, directory.disk, n, inode)
      ensures |directory.calls| > |old(directory.calls)| + 1 ==> created
    {
      hide Inv, LiveView, Replay, Bases, AllViews, BaseViews;
      created := false;
      ghost var env, before := directory.env, directory.disk;
      if Mentions(directory.disk.durable, directory.disk.log, Temp(n)) {
        return created, Failed;
      }
      var inode;
      inode, status := directory.Create(Temp(n), Unreadable);
      if status == OK || status == Stopped {
        TemporaryKeepsInv(env, before, Link(Temp(n), inode), possible);
        NewNameHasOneInode(env, before, n, inode);
        var linked := before.Issue(Link(Temp(n), inode));
        FilesKeepInv(env, linked, linked.files[inode := File(Unreadable, false)], possible);
        EndKeepsInv(env, before, before.Linked(Temp(n), inode, Unreadable), directory.disk, status, possible);
        ReplayIssue(before.durable, before.log, Link(Temp(n), inode));
      }
      if status != OK {
        return;
      }
      created := true;
      ghost var empty := directory.disk;
      status := directory.Write(inode, record);
      FilesKeepInv(env, empty, empty.files[inode := File(record, false)], possible);
      EndKeepsInv(env, empty, empty.(files := empty.files[inode := File(record, false)]), directory.disk, status,
        possible);
      if status != OK {
        return;
      }
      ghost var written := directory.disk;
      status := directory.SyncFile(inode);
      FilesKeepInv(env, written, written.files[inode := File(record, true)], possible);
      EndKeepsInv(env, written, written.(files := written.files[inode := File(record, true)]), directory.disk, status,
        possible);
      if status != OK {
        return;
      }
      ghost var synced := directory.disk;
      status := directory.Other(); // closes it
      EndKeepsInv(env, synced, synced, directory.disk, status, possible);
    }

    /** Renames the temporary file and syncs the directory. */
    method Publish(n: nat, name: Name, ghost record: Record, ghost possible: iset<Store>) returns (status: Status)
      requires Valid() && made && Leaves(possible) && !name.Temp?
      requires Temp(n) in directory.disk.Live()
      requires var inode := directory.disk.Live()[Temp(n)];
               && inode in directory.disk.files && directory.disk.files[inode] == File(record, true)
               && HasOneInode(directory.env, directory.disk, n, inode)
      requires Publishable(directory.env, directory.disk, name, record, possible)
      modifies directory
      ensures Valid() && Leaves(possible)
      ensures status == Stopped ==> Rests()
      ensures status == OK ==>
                && directory.disk.log == [] && Temp(n) !in directory.disk.Live()
                && LiveView(directory.disk) == old(LiveView(directory.disk))[name := record]
      ensures status != Stopped ==>
                || LiveView(directory.disk) == old(LiveView(directory.disk))
                || LiveView(directory.disk) == old(LiveView(directory.disk))[name := record]
    {
      hide Inv, LiveView, Replay, Contents, Publishable, HasOneInode;
      ghost var env, before := directory.env, directory.disk;
      status := directory.Rename(Temp(n), name);
      LiveIsPossible(env, before, possible);
      PublishKeepsInv(env, before, n, before.Live()[Temp(n)], name, possible);
      LiveAfterPublish(before, n, name);
      EndKeepsInv(env, before, before.Issue(Op.Rename(Temp(n), name)), directory.disk, status, possible);
      ReplayIssue(before.durable, before.log, Op.Rename(Temp(n), name));
      if status != OK {
        return;
      }
      ghost var renamed := directory.disk;
      status := directory.Other(); // opens the directory
      EndKeepsInv(env, renamed, renamed, directory.disk, status, possible);
      if status != OK {
        return;
      }
      status := directory.Sync();
      SyncDecides(env, renamed, possible);
      EndKeepsInv(env, renamed, renamed.Synced(), directory.disk, status, possible);
      NothingToReplay(renamed.Live());
    }

    /** The deferred removal; its own failure is ignored. */
    method RemoveTemp(n: nat, ghost possible: iset<Store>) returns (stopped: bool)
      requires Valid() && made && Leaves(possible)
      modifies directory
      ensures Valid() && Leaves(possible)
      ensures stopped ==> Rests()
      ensures !stopped ==> LiveView(directory.disk) == old(LiveView(directory.disk))
      ensures !stopped && Temp(n) !in old(directory.disk.Live()) ==> directory.disk == old(directory.disk)
      ensures !stopped ==> RemovedAfter(old(directory.calls), n)
    {
      hide Inv, LiveView, Replay, AllViews, BaseViews;
      ghost var before := directory.disk;
      var status := directory.Unlink(Temp(n));
      TemporaryKeepsInv(directory.env, before, Op.Unlink(Temp(n)), possible);
      ReplayIssue(before.durable, before.log, Op.Unlink(Temp(n)));
      EndKeepsInv(directory.env, before, before.Removed(Temp(n)), directory.disk, status, possible);
      stopped := status == Stopped;
    }

    /** The last call was the removal of the temporary file, and if it worked the name is free. */
    ghost predicate RemovedAfter(earlier: seq<Called<Name, Record>>, n: nat)
      reads directory
    {
      && |directory.calls| == |earlier| + 1
      && var last := directory.calls[|earlier|];
         && directory.calls == earlier + [last] && last.call == CallUnlink(Temp(n))
         && (last.status == OK || last.status == NotFound ==> Temp(n) !in directory.disk.Live())
    }

    /** Fills a temporary file and publishes it. Once created the temporary file is removed in the end. */
    method Replace(n: nat, name: Name, record: Record, ghost possible: iset<Store>) returns (status: Status)
      requires Valid() && made && Leaves(possible) && !name.Temp?
      requires Publishable(directory.env, directory.disk, name, record, possible)
      modifies directory
      ensures Valid() && Leaves(possible)
      ensures status == Stopped ==> Rests()
      ensures status == OK ==>
                directory.disk.log == [] && LiveView(directory.disk) == old(LiveView(directory.disk))[name := record]
      ensures status != Stopped ==>
                || LiveView(directory.disk) == old(LiveView(directory.disk))
                || LiveView(directory.disk) == old(LiveView(directory.disk))[name := record]
      ensures status != Stopped && |directory.calls| > |old(directory.calls)| + 1 ==>
                exists calls :: RemovedAfter(calls, n)
    {
      hide Inv, LiveView, Replay, Contents, HasOneInode, AllViews, BaseViews, RemovedAfter;
      var created;
      created, status := FillTemp(n, record, possible);
      if status == OK {
        status := Publish(n, name, record, possible);
      }
      if created && status != Stopped {
        ghost var calls := directory.calls;
        var stopped := RemoveTemp(n, possible);
        if stopped {
          return Stopped;
        }
        assert RemovedAfter(calls, n);
      }
    }

    /** Replaces a file atomically. An error may also be reported after the new file was published. A
        temporary file that was created is removed in the end. */
    method WriteProfileJSON(name: Name, record: Record, ghost possible: iset<Store>) returns (status: Status)
      requires Valid() && Leaves(possible) && !name.Temp?
      requires Publishable(directory.env, directory.disk, name, record, possible)
      modifies this, directory
      ensures Valid() && Leaves(possible) && parent.durable == old(parent.durable)
      ensures status == Stopped ==> Rests()
      ensures old(made) || status == OK ==> made
      ensures status == OK ==>
                directory.disk.log == [] && LiveView(directory.disk) == old(LiveView(directory.disk))[name := record]
      ensures status != Stopped ==>
                || LiveView(directory.disk) == old(LiveView(directory.disk))
                || LiveView(directory.disk) == old(LiveView(directory.disk))[name := record]
      ensures status != NotFound
      ensures status != Stopped && |directory.calls| > |old(directory.calls)| + 2 ==>
                exists n, calls :: RemovedAfter(calls, n)
    {
      hide Inv, LiveView, Replay, Contents, HasOneInode, AllViews, BaseViews, RemovedAfter, Publishable;
      status := MakeDirectory(possible);
      if status == Stopped {
        return;
      }
      if status != OK {
        return Failed;
      }
      var k: int := *;
      status := Replace(if k < 0 then 0 else k, name, record, possible);
      if status == NotFound {
        status := Failed;
      }
    }

    // ---------------------------------------------------------------- operations

    method FindProfile(profiles: seq<Summary>, id: string) returns (position: int)
      ensures position == Position(profiles, id)
    {
      for i := 0 to |profiles|
        invariant Position(profiles, id) == (var rest := Position(profiles[i..], id); if rest < 0 then -1 else i + rest)
      {
        assert profiles[i..][1..] == profiles[i + 1..];
        if profiles[i].id == id {
          return i;
        }
      }
      return -1;
    }

    method FindName(profiles: seq<Summary>, name: string, exceptID: string) returns (used: bool)
      ensures used == NameInUse(profiles, name, exceptID)
    {
      for i := 0 to |profiles|
        invariant forall j | 0 <= j < i :: profiles[j].name != name || profiles[j].id == exceptID
      {
        if profiles[i].name == name && profiles[i].id != exceptID {
          return true;
        }
      }
      return false;
    }

    /** Random IDs are taken as fresh: drawing one that is in use counts as a failure. */
    method NewProfileSummary(name: string, now: nat, profiles: seq<Summary>) returns (p: Summary, ok: bool)
      ensures p.name == name
      ensures ok ==> ValidID(p.id) && !Lists(profiles, p.id)
    {
      var id: string := *;
      p, ok := Summary(id, name, now), ValidID(id) && Position(profiles, id) < 0;
    }

    /** The change of an index as update applies it. */
    method ChangeIndex(index: Snapshot, c: Change) returns (changed: Snapshot, outcome: Outcome)
      requires c.Rename? || c.Switch? || c.DismissNotice?
      ensures outcome in {Done, Invalid, Duplicate}
      ensures outcome == Done <==>
                match c
                case Rename(id, name) =>
                  ValidName(name) && Lists(index.profiles, id) && !NameInUse(index.profiles, name, id)
                case Switch(id) => Lists(index.profiles, id)
                case _ => true
      ensures outcome == Done ==> changed == ChangedSnapshot(index, c)
      ensures outcome != Done ==> outcome == RefusalOf(index, c)
    {
      hide ValidName, Position;
      changed, outcome := index, Done;
      match c
      case Rename(id, name) =>
        if !ValidName(name) {
          return index, Invalid;
        }
        var position := FindProfile(index.profiles, id);
        if position < 0 {
          return index, Invalid;
        }
        var used := FindName(index.profiles, name, id);
        if used {
          return index, Duplicate;
        }
        changed := index.(profiles := index.profiles[position := index.profiles[position].(name := name)]);
      case Switch(id) =>
        var position := FindProfile(index.profiles, id);
        if position < 0 {
          return index, Invalid;
        }
        changed := index.(activeID := id);
      case DismissNotice =>
        changed := index.(notice := "");
    }

    /** Rename, Switch and DismissNotice. */
    method Update(binding: string, c: Change, ghost possible: iset<Store>)
      returns (snapshot: Snapshot, outcome: Outcome)
      requires c.Rename? || c.Switch? || c.DismissNotice?
      requires Valid() && Leaves(possible) && AllSound(possible)
      modifies this, directory
      ensures Valid() && Leaves(Outcomes(directory.env, old(directory.disk), possible, After(old(Current()), c)))
      ensures outcome == Interrupted ==> Rests()
      ensures outcome.Refusal() ==> directory.disk == old(directory.disk)
      ensures Settles(old(Current()), c, old(Bound(binding)), Current(), outcome)
      // In plain terms, a rename renames one profile, a switch moves the pointer, a dismissal empties the notice.
      ensures outcome == Done ==>
                && old(Current()).Present? && Current().Present?
                && var was, now := old(Current()), Current();
                   && now.hardware == was.hardware && now.payloads == was.payloads
                   && |now.snapshot.profiles| == |was.snapshot.profiles|
                   && now.snapshot.activeID == (if c.Switch? then c.id else was.snapshot.activeID)
                   && now.snapshot.notice == (if c.DismissNotice? then "" else was.snapshot.notice)
                   && forall i | 0 <= i < |was.snapshot.profiles| ::
                        var before, after := was.snapshot.profiles[i], now.snapshot.profiles[i];
                        && after.id == before.id && after.createdAt == before.createdAt
                        && after.name == if c.Rename? && before.id == c.id then c.name else before.name
      ensures outcome == Done ==> Leaves(iset{Current()}) && Current().Present? && snapshot == Current().snapshot
    {
      hide Inv, LiveView, Contents, Changed, Sound, ValidName, Position, NameInUse, ChangedSnapshot, Outcomes,
        Publishable;
      ghost var before := directory.disk;
      ghost var all := Outcomes(directory.env, before, possible, After(Current(), c));
      OutcomesInclude(directory.env, before, possible, c);
      snapshot, outcome := Load(binding);
      if outcome != Done {
        if outcome == Interrupted {
          HaltKeepsInv(directory.env, before, directory.disk, all);
          EmptyHalts(directory.env, before, directory.disk);
        }
        return;
      }
      snapshot, outcome := ChangeIndex(snapshot, c);
      if outcome != Done {
        return;
      }
      IndexOfChange(Current(), c);
      IndexIsPublishable(directory.env, before, possible, c);
      IndexCompletes(LiveView(before), c);
      IndexChangesAre(Current(), c);
      var status := WriteProfileJSON(Index, IndexFile(binding, snapshot), all);
      if status == OK {
        QuietDecides(directory.env, directory.disk, all);
      }
      outcome := OutcomeOf(status);
    }

    method List(binding: string, ghost possible: iset<Store>) returns (snapshot: Snapshot, outcome: Outcome)
      requires Valid() && Leaves(possible)
      modifies directory
      ensures Valid() && Leaves(possible)
      ensures outcome == Interrupted ==> Rests()
      ensures outcome != Interrupted ==> directory.disk == old(directory.disk)
      ensures outcome == Done ==> old(Bound(binding)) && snapshot == Current().snapshot
      ensures outcome.Refusal() ==> !old(Bound(binding))
    {
      ghost var before := directory.disk;
      snapshot, outcome := Load(binding);
      if outcome == Interrupted {
        HaltKeepsInv(directory.env, before, directory.disk, possible);
        EmptyHalts(directory.env, before, directory.disk);
      }
    }

    method Read(binding: string, id: string, ghost possible: iset<Store>)
      returns (configuration: string, outcome: Outcome)
      requires Valid() && Leaves(possible)
      modifies directory
      ensures Valid() && Leaves(possible)
      ensures outcome == Interrupted ==> Rests()
      ensures outcome != Interrupted ==> directory.disk == old(directory.disk)
      ensures outcome == Done ==>
                && old(Bound(binding)) && id in Current().payloads && configuration == Current().payloads[id]
      ensures outcome.Refusal() ==> !old(Bound(binding)) || !Lists(old(Current()).snapshot.profiles, id)
    {
      hide Inv, LiveView, Contents, Position;
      ghost var before := directory.disk;
      var snapshot;
      snapshot, outcome := List(binding, possible);
      configuration := "";
      if outcome != Done {
        return;
      }
      var position := FindProfile(snapshot.profiles, id);
      if position < 0 {
        return "", Invalid;
      }
      ListedIsHad(LiveView(before), id);
      configuration, outcome := ReadLocalProfile(id);
      if outcome == Interrupted {
        HaltKeepsInv(directory.env, before, directory.disk, possible);
        EmptyHalts(directory.env, before, directory.disk);
      }
      ListedIsValid(LiveView(before), id);
    }

    /** Publishes the complete file of a new profile and then the index that lists it. */
    method PublishNewProfile(
      p: Summary, configuration: string, hardware: string, snapshot: Snapshot,
      ghost c: Change, ghost possible: iset<Store>)
      returns (outcome: Outcome)
      requires Valid() && Leaves(possible)
      requires (c.Seed? || c.Clone?) && c.profile == p && Sound(Current()) && Permitted(Current(), c)
      requires c.Clone? ==> c.sourceID in Current().payloads
      requires configuration == if c.Seed? then c.configuration else Current().payloads[c.sourceID]
      requires Current() in possible && Changed(Current(), c) in possible
      requires Publishable(directory.env, directory.disk, Payload(p.id), ProfileFile(p.id, configuration), possible)
      requires var next := Changed(Current(), c);
               next.Present? && next.hardware == hardware && next.snapshot == snapshot
      modifies this, directory
      ensures Valid() && Leaves(possible) && parent.durable == old(parent.durable)
      ensures outcome == Interrupted ==> Rests()
      ensures outcome in {Done, Error, Interrupted}
      ensures outcome == Done ==> Current() == Changed(old(Current()), c) && Leaves(iset{Current()})
      ensures outcome == Error ==> Current() == old(Current()) || Current() == Changed(old(Current()), c)
    {
      hide Inv, LiveView, Contents, Changed, Sound, Permitted, Publishable;
      ghost var view := LiveView(directory.disk);
      NewProfileIsInvisible(view, c);
      IndexCompletes(view, c);
      var status := WriteProfileJSON(Payload(p.id), ProfileFile(p.id, configuration), possible);
      if status == OK {
        NewIndexIsPublishable(directory.env, directory.disk, view, c, possible);
        status := WriteProfileJSON(Index, IndexFile(hardware, snapshot), possible);
        if status == OK {
          QuietDecides(directory.env, directory.disk, possible);
        }
      }
      outcome := OutcomeOf(status);
    }

    /** Create and Duplicate. The new profile is complete before the index lists it. */
    method CloneProfile(
      binding: string, sourceID: string, name: string, activate: bool, now: nat, ghost possible: iset<Store>)
      returns (snapshot: Snapshot, outcome: Outcome, ghost c: Change)
      requires Valid() && Leaves(possible) && AllSound(possible)
      modifies this, directory
      ensures c.Clone? && c.profile.name == name && c.activate == activate
      ensures c.sourceID == if activate && old(Bound(binding)) then old(Current()).snapshot.activeID else sourceID
      ensures Valid() && Leaves(Outcomes(directory.env, old(directory.disk), possible, After(old(Current()), c)))
      ensures outcome == Interrupted ==> Rests()
      ensures outcome.Refusal() ==> directory.disk == old(directory.disk)
      ensures Settles(old(Current()), c, old(Bound(binding)), Current(), outcome)
      ensures outcome == Done ==> Leaves(iset{Current()}) && Current().Present? && snapshot == Current().snapshot
    {
      hide Inv, LiveView, Contents, Changed, Sound, ValidName, Position, NameInUse, ChangedSnapshot, ValidID,
        Outcomes, Publishable;
      ghost var before := directory.disk;
      ghost var s, view := Current(), LiveView(before);
      snapshot := Snapshot([], "", "");
      var from, p := if activate then "" else sourceID, Summary("", name, now);
      c := Clone(if activate && Bound(binding) then Current().snapshot.activeID else sourceID, p, activate);
      OutcomesInclude(directory.env, before, possible, c);
      if !ValidName(name) {
        return snapshot, Invalid, c;
      }
      snapshot, outcome := Load(binding);
      if outcome != Done {
        if outcome == Interrupted {
          HaltKeepsInv(directory.env, before, directory.disk, Outcomes(directory.env, before, possible, After(s, c)));
          EmptyHalts(directory.env, before, directory.disk);
        }
        return;
      }
      var used := FindName(snapshot.profiles, name, "");
      if used {
        return snapshot, Duplicate, c;
      }
      if activate {
        from := snapshot.activeID;
      }
      var position := FindProfile(snapshot.profiles, from);
      if position < 0 {
        return snapshot, Invalid, c;
      }
      ListedIsHad(view, from);
      ListedIsValid(view, from);
      var configuration;
      configuration, outcome := ReadLocalProfile(from);
      if outcome != Done {
        if outcome == Interrupted {
          HaltKeepsInv(directory.env, before, directory.disk, Outcomes(directory.env, before, possible, After(s, c)));
          EmptyHalts(directory.env, before, directory.disk);
        }
        return;
      }
      var ok;
      p, ok := NewProfileSummary(name, now, snapshot.profiles);
      if !ok {
        return snapshot, Error, c;
      }
      c := Clone(from, p, activate);
      ghost var all := Outcomes(directory.env, before, possible, After(s, c));
      OutcomesInclude(directory.env, before, possible, c);
      ProfileIsPublishable(directory.env, before, possible, c, all, configuration);
      CloneOfIndex(s, c);
      snapshot := Snapshot(snapshot.profiles + [p], if activate then p.id else snapshot.activeID, snapshot.notice);
      outcome := PublishNewProfile(p, configuration, binding, snapshot, c, all);
    }

    /** Seeds a device that has no directory yet and leaves every other one alone, damaged or not.
        `seed` is missing when it is not a JSON object. */
    method Bootstrap(binding: string, seed: Text.Option<string>, now: nat, notice: string, ghost possible: iset<Store>)
      returns (snapshot: Snapshot, outcome: Outcome, ghost c: Change)
      requires Valid() && Leaves(possible) && AllSound(possible)
      modifies this, directory
      ensures c.Seed? && c.hardware == binding && c.profile.name == AUTOMATIC_NAME
      ensures seed.Some? ==> c.configuration == seed.value
      ensures Valid() && Leaves(Outcomes(directory.env, old(directory.disk), possible, After(old(Current()), c)))
      ensures outcome == Interrupted ==> Rests()
      ensures outcome.Refusal() ==> directory.disk == old(directory.disk)
      ensures outcome == Done && old(Current()).Present? ==>
                && old(Bound(binding)) && directory.disk == old(directory.disk) && snapshot == Current().snapshot
      ensures outcome == Done && !old(Current()).Present? ==>
                && !old(made) && old(Current()).Absent? && Permitted(Absent, c) && Current() == Changed(Absent, c)
                && Leaves(iset{Current()}) && snapshot == Current().snapshot
      ensures outcome.Refusal() ==> Current() == old(Current()) && (old(made) || Text.Blank(binding) || seed.None?)
      ensures outcome == Error ==> Current() == old(Current()) || Current() == After(old(Current()), c)
      ensures old(made) && old(Current()).Absent? ==> outcome != Done
      ensures parent.durable == old(parent.durable)
    {
      hide Inv, LiveView, Contents, Changed, Sound, ValidName, Position, NameInUse, ChangedSnapshot, ValidID,
        Outcomes, Publishable;
      ghost var before := directory.disk;
      ghost var s, view := Current(), LiveView(before);
      var p := Summary("", AUTOMATIC_NAME, now);
      c := Seed(binding, p, if seed.Some? then seed.value else "", notice);
      OutcomesInclude(directory.env, before, possible, c);
      snapshot, outcome := Load(binding);
      if outcome == Done {
        return;
      }
      if outcome != NotExist {
        if outcome == Interrupted {
          HaltKeepsInv(directory.env, before, directory.disk, Outcomes(directory.env, before, possible, After(s, c)));
          EmptyHalts(directory.env, before, directory.disk);
        } else {
          UnmadeIsAbsent(before);
        }
        return;
      }
      if made {
        return snapshot, Invalid, c;
      }
      if seed.None? {
        return snapshot, Invalid, c;
      }
      UnmadeIsAbsent(before);
      var ok;
      p, ok := NewProfileSummary(AUTOMATIC_NAME, now, []);
      if !ok {
        return snapshot, Error, c;
      }
      AutomaticNameIsValid();
      c := Seed(binding, p, seed.value, notice);
      ghost var all := Outcomes(directory.env, before, possible, After(s, c));
      OutcomesInclude(directory.env, before, possible, c);
      ProfileIsPublishable(directory.env, before, possible, c, all, seed.value);
      SeedOfIndex(c);
      snapshot := Snapshot([p], p.id, notice);
      outcome := PublishNewProfile(p, seed.value, binding, snapshot, c, all);
    }

    /** `configuration` is missing when it is not a JSON object. */
    method SaveActiveProfile(binding: string, configuration: Text.Option<string>, ghost possible: iset<Store>)
      returns (outcome: Outcome, ghost c: Change)
      requires Valid() && Leaves(possible) && AllSound(possible)
      modifies this, directory
      ensures c == SaveActive(if configuration.Some? then configuration.value else "")
      ensures Valid() && Leaves(Outcomes(directory.env, old(directory.disk), possible, After(old(Current()), c)))
      ensures outcome == Interrupted ==> Rests()
      ensures outcome.Refusal() ==> directory.disk == old(directory.disk)
      ensures Settles(old(Current()), c, old(Bound(binding)) && configuration.Some?, Current(), outcome)
      ensures outcome == Done ==> Leaves(iset{Current()})
    {
      hide Inv, LiveView, Contents, Changed, Sound, Outcomes, Publishable;
      ghost var before := directory.disk;
      c := SaveActive(if configuration.Some? then configuration.value else "");
      ghost var all := Outcomes(directory.env, before, possible, After(Current(), c));
      OutcomesInclude(directory.env, before, possible, c);
      if configuration.None? {
        return Invalid, c;
      }
      var snapshot;
      snapshot, outcome := Load(binding);
      if outcome != Done {
        if outcome == Interrupted {
          HaltKeepsInv(directory.env, before, directory.disk, all);
          EmptyHalts(directory.env, before, directory.disk);
        }
        return;
      }
      SaveIsPublishable(directory.env, before, possible, configuration.value);
      SavingCompletes(LiveView(before), configuration.value);
      var active := snapshot.activeID;
      var status := WriteProfileJSON(Payload(active), ProfileFile(active, configuration.value), all);
      if status == OK {
        QuietDecides(directory.env, directory.disk, all);
      }
      outcome := OutcomeOf(status);
    }

    /** The profile is unpublished before its file is removed: a crash may leave an orphan, but never
        an index that lists a missing profile. */
    method DeleteProfile(binding: string, id: string, ghost possible: iset<Store>)
      returns (snapshot: Snapshot, outcome: Outcome)
      requires Valid() && Leaves(possible) && AllSound(possible)
      modifies this, directory
      ensures Valid()
      ensures Leaves(Outcomes(directory.env, old(directory.disk), possible, After(old(Current()), Delete(id))))
      ensures outcome == Interrupted ==> Rests()
      ensures outcome.Refusal() ==> directory.disk == old(directory.disk)
      ensures Settles(old(Current()), Delete(id), old(Bound(binding)), Current(), outcome)
      ensures outcome == Protected ==> Protects(old(Current()), id)
      ensures outcome == Done ==>
                && Leaves(iset{Current()}) && Current().Present? && snapshot == Current().snapshot
                && Payload(id) !in LiveView(directory.disk)
    {
      hide Inv, LiveView, Contents, Changed, Sound, Position, ChangedSnapshot, Outcomes, Publishable;
      ghost var before := directory.disk;
      ghost var s, view, c := Current(), LiveView(before), Delete(id);
      ghost var all := Outcomes(directory.env, before, possible, After(s, c));
      OutcomesInclude(directory.env, before, possible, c);
      snapshot, outcome := Load(binding);
      if outcome != Done {
        if outcome == Interrupted {
          HaltKeepsInv(directory.env, before, directory.disk, all);
          EmptyHalts(directory.env, before, directory.disk);
        }
        return;
      }
      var position := FindProfile(snapshot.profiles, id);
      if position < 0 {
        return snapshot, Invalid;
      }
      if |snapshot.profiles| == 1 || snapshot.activeID == id {
        return snapshot, Protected;
      }
      ListedIsHad(view, id);
      IndexIsPublishable(directory.env, before, possible, c);
      IndexCompletes(view, c);
      DeletionOfIndex(s, id);
      snapshot := snapshot.(profiles := snapshot.profiles[..position] + snapshot.profiles[position + 1..]);
      var status := WriteProfileJSON(Index, IndexFile(binding, snapshot), all);
      if status == OK {
        QuietDecides(directory.env, directory.disk, all);
        status := RemoveProfile(id, iset{Current()});
        MorePossible(directory.env, directory.disk, iset{Changed(s, c)}, all);
      }
      outcome := OutcomeOf(status);
    }

    method RemoveProfile(id: string, ghost possible: iset<Store>) returns (status: Status)
      requires Valid() && made && Leaves(possible) && possible == iset{Current()} && !Current().Damaged?
      requires directory.disk.log == [] // the index without the profile is durable
      requires Current().Present? ==> !Lists(Current().snapshot.profiles, id)
      requires Payload(id) in LiveView(directory.disk)
      modifies directory
      ensures Valid() && Leaves(possible) && Current() in possible
      ensures status == Stopped ==> Rests()
      ensures status != NotFound
      ensures status == OK ==> Payload(id) !in LiveView(directory.disk)
    {
      hide Inv, Contents, Replay;
      ghost var before := directory.disk;
      status := directory.Unlink(Payload(id));
      UnlistedIsInvisible(LiveView(before), id, "");
      if Index in LiveView(before) {
        IndexOf(LiveView(before));
      }
      RemovalKeepsInv(directory.env, before, id, possible);
      EndKeepsInv(directory.env, before, before.Issue(Op.Unlink(Payload(id))), directory.disk, status, possible);
      LiveIsPossible(directory.env, directory.disk, possible);
    }
  }

  lemma NothingToReplay(entries: Entries<Name>)
    ensures Replay(entries, []) == entries
  {
  }

  /** Whatever the moment of the crash, the next load finds a possible store: no index, or an index
      that passes every check. */
  lemma RestartFindsStore(env: Environment, before: StoreDisk, after: StoreDisk, possible: iset<Store>)
    requires Inv(env, before, possible) && AllSound(possible) && Halts(env, before, after)
    ensures Contents(LiveView(after)) in possible
    ensures Contents(LiveView(after)) == Absent
              || (Contents(LiveView(after)).Present? && Sound(Contents(LiveView(after))))
  {
    hide Inv, Contents;
    HaltKeepsInv(env, before, after, possible);
    LiveIsSound(env, after, possible);
  }

  // ------------------------------------------------------------------ what is not promised

  /** Loading accepts two profiles of one name. */
  lemma LoadIgnoresNames(hardware: string, left: string, right: string, name: string)
    requires ValidID(left) && ValidID(right) && left != right && ValidName(name)
    ensures var profiles := [Summary(left, name, 0), Summary(right, name, 0)];
            var view := map[Index := IndexFile(hardware, Snapshot(profiles, left, "")),
                            Payload(left) := ProfileFile(left, "{}"), Payload(right) := ProfileFile(right, "{}")];
            Contents(view).Present? && Contents(view).hardware == hardware && !Sound(Contents(view))
  {
    hide ValidID, ValidName;
    var profiles := [Summary(left, name, 0), Summary(right, name, 0)];
    assert profiles[0].id == left && profiles[1].id == right && profiles[0].name == profiles[1].name;
  }

  /** That is all it does not check. */
  lemma LoadedIsSoundIff(view: View)
    requires Contents(view).Present?
    ensures Sound(Contents(view)) <==> UniqueNames(Contents(view).snapshot.profiles)
  {
    hide ValidSnapshot, UniqueNames;
  }

  /** The calls of a first Bootstrap up to the creation of the second temporary file. */
  function CallsToIndex(id: string, configuration: string): seq<Called<Name, Record>> {
    [ Called(CallOther, OK),
      Called(CallCreate(Temp(0), 0), OK), Called(CallWrite(0, ProfileFile(id, configuration)), OK),
      Called(CallSyncFile(0), OK), Called(CallOther, OK),
      Called(CallRename(Temp(0), Payload(id)), OK), Called(CallOther, OK), Called(CallSync, OK),
      Called(CallUnlink(Temp(0)), NotFound), Called(CallOther, OK) ]
  }

  /** The steps that make a first file under a temporary name. */
  lemma FillsFile(env: Environment, record: Record)
    ensures var empty: StoreDisk := Disk(map[], [], map[]);
            var made: StoreDisk := Disk(map[], [Link(Temp(0), 0)], map[0 := File(Unreadable, false)]);
            var written := made.(files := map[0 := File(record, false)]);
            var synced := made.(files := map[0 := File(record, true)]);
            && Ends(env, empty, Intended(empty, CallOther, Unreadable), empty, OK)
            && Ends(env, empty, Intended(empty, CallCreate(Temp(0), 0), Unreadable), made, OK)
            && Ends(env, made, Intended(made, CallWrite(0, record), Unreadable), written, OK)
            && Ends(env, written, Intended(written, CallSyncFile(0), Unreadable), synced, OK)
            && Ends(env, synced, Intended(synced, CallOther, Unreadable), synced, OK)
  {
  }

  /** The calls that make a file of a profile, seen from the disk. */
  lemma MakesFile(env: Environment, id: string, configuration: string)
    returns (disks: seq<StoreDisk>, calls: seq<Called<Name, Record>>)
    ensures Trace(env, disks, calls, Unreadable) && |disks| == |calls| + 1 && disks[0] == Disk(map[], [], map[])
    ensures calls == CallsToIndex(id, configuration)[..5]
    ensures disks[5] == Disk(map[], [Link(Temp(0), 0)], map[0 := File(ProfileFile(id, configuration), true)])
  {
    hide Trace, Ends, Intended;
    var record, log := ProfileFile(id, configuration), [Link(Temp(0), 0)];
    FillsFile(env, record);
    var empty: StoreDisk := Disk(map[], [], map[]);
    disks, calls := [empty], [];
    NoCalls(env, empty);
    disks, calls := TraceStep(env, disks, calls, Unreadable, Called(CallOther, OK), empty);
    var made: StoreDisk := Disk(map[], log, map[0 := File(Unreadable, false)]);
    disks, calls := TraceStep(env, disks, calls, Unreadable, Called(CallCreate(Temp(0), 0), OK), made);
    var written: StoreDisk := Disk(map[], log, map[0 := File(record, false)]);
    disks, calls := TraceStep(env, disks, calls, Unreadable, Called(CallWrite(0, record), OK), written);
    var synced: StoreDisk := Disk(map[], log, map[0 := File(record, true)]);
    disks, calls := TraceStep(env, disks, calls, Unreadable, Called(CallSyncFile(0), OK), synced);
    disks, calls := TraceStep(env, disks, calls, Unreadable, Called(CallOther, OK), synced);
  }

  /** When the power goes then, the directory is there without an index, and Bootstrap seeds no such directory. */
  lemma BootstrapMayBlock(env: Environment, id: string, configuration: string)
    returns (disks: seq<StoreDisk>, calls: seq<Called<Name, Record>>)
    ensures Trace(env, disks, calls, Unreadable) && |disks| == |calls| + 1 && disks[0] == Disk(map[], [], map[])
    ensures calls == CallsToIndex(id, configuration) + [Called(CallCreate(Temp(1), 1), Stopped)]
    ensures var last := disks[|calls|];
            && last.log == [] && Contents(LiveView(last)) == Absent
            && HasConfiguration(LiveView(last), id, configuration)
  {
    hide Trace, Contents;
    disks, calls := MakesFile(env, id, configuration);
    var renamed := disks[5].Issue(Op.Rename(Temp(0), Payload(id)));
    var published: StoreDisk := Disk(map[Payload(id) := 0], [], disks[5].files);
    PublishedLive(disks[5], renamed, id);
    disks, calls := TraceStep(env, disks, calls, Unreadable, Called(CallRename(Temp(0), Payload(id)), OK), renamed);
    disks, calls := TraceStep(env, disks, calls, Unreadable, Called(CallOther, OK), renamed);
    disks, calls := TraceStep(env, disks, calls, Unreadable, Called(CallSync, OK), published);
    disks, calls := TraceStep(env, disks, calls, Unreadable, Called(CallUnlink(Temp(0)), NotFound), published);
    disks, calls := TraceStep(env, disks, calls, Unreadable, Called(CallOther, OK), published);
    NothingLost(env, published);
    disks, calls := TraceStep(env, disks, calls, Unreadable, Called(CallCreate(Temp(1), 1), Stopped), published);
    OnlyAProfile(published, id, configuration);
  }

  lemma OnlyAProfile(disk: StoreDisk, id: string, configuration: string)
    requires disk == Disk(map[Payload(id) := 0], [], map[0 := File(ProfileFile(id, configuration), true)])
    ensures Contents(LiveView(disk)) == Absent && HasConfiguration(LiveView(disk), id, configuration)
  {
  }

  lemma NoCalls(env: Environment, disk: StoreDisk)
    ensures Trace(env, [disk], [], Unreadable)
  {
  }

  lemma PublishedLive(filled: StoreDisk, renamed: StoreDisk, id: string)
    requires filled.durable == map[] && filled.log == [Link(Temp(0), 0)]
    requires renamed == filled.Issue(Op.Rename(Temp(0), Payload(id)))
    ensures Temp(0) in filled.Live() && renamed.Live() == map[Payload(id) := 0]
  {
    assert filled.log[..0] == [];
    ReplayIssue(filled.durable, filled.log, Op.Rename(Temp(0), Payload(id)));
  }

  lemma NothingLost(env: Environment, disk: StoreDisk)
    requires disk.log == []
    ensures Halts(env, disk, disk)
  {
    NothingUnsynced<Name>(env, []);
    assert Survives(env, [], disk.log) && Replay(disk.durable, []) == disk.durable;
  }

  ghost function AllReachable(start: Store): iset<Store> {
    iset s | Reachable(start, s)
  }

  lemma ReachableAreSound(start: Store)
    requires Sound(start)
    ensures AllSound(AllReachable(start))
  {
    forall s | s in AllReachable(start) ensures Sound(s) {
      ReachableIsSound(start, s);
    }
  }

  /** So a store that exists is found by every later restart, under its hardware profile. */
  lemma ExistingStoreStays(env: Environment, before: StoreDisk, after: StoreDisk, start: Store)
    requires start.Present? && Sound(start) && Inv(env, before, AllReachable(start)) && Halts(env, before, after)
    ensures var s := Contents(LiveView(after)); s.Present? && Sound(s) && s.hardware == start.hardware
  {
    hide Inv, Contents, Sound, Reachable;
    HaltKeepsInv(env, before, after, AllReachable(start));
    LiveIsPossible(env, after, AllReachable(start));
    ReachableIsSound(start, Contents(LiveView(after)));
  }

  lemma ReachableIsClosed(env: Environment, disk: StoreDisk, start: Store, c: Change)
    requires Sound(start) && Inv(env, disk, AllReachable(start))
    ensures var all := AllReachable(start);
            AllSound(all) && Outcomes(env, disk, all, After(Contents(LiveView(disk)), c)) <= all
  {
    hide Inv, Sound, Permitted, Changed, Contents, Quiet, Reachable, SameIndex, Known;
    var s, all := Contents(LiveView(disk)), AllReachable(start);
    ReachableAreSound(start);
    LiveIsPossible(env, disk, all);
    ReachableChange(start, s, c);
    forall mixed | mixed in Outcomes(env, disk, all, After(s, c)) ensures mixed in all {
      if mixed !in all && mixed != After(s, c) {
        var t :| (t in all || t == After(s, c)) && SameIndex(mixed, t);
        MixIsReachable(start, t, mixed);
      }
    }
  }

  /** One call of a run, with arguments chosen at will, or a halt. */
  method AnyCall(store: ProfileStore, binding: string, ghost start: Store) returns (outcome: Outcome)
    requires store.Valid() && store.Leaves(AllReachable(start)) && Sound(start)
    modifies store, store.directory
    ensures store.Valid() && store.Leaves(AllReachable(start))
    ensures old(store.Leaves(iset{store.Current()})) && Orderly(store.directory.env, outcome) ==>
              store.Leaves(iset{store.Current()})
  {
    hide Inv, LiveView, Contents, Changed, Sound, Permitted, Reachable, Outcomes;
    ghost var env, all, before := store.directory.env, AllReachable(start), store.directory.disk;
    ReachableIsClosed(env, before, start, DismissNotice);
    var id: string, name: string, flag: bool, now: int := *, *, *, *;
    var text: Text.Option<string> := *;
    var snapshot, configuration;
    ghost var c;
    if {
      case true =>
        snapshot, outcome, c := store.Bootstrap(binding, text, if now < 0 then 0 else now, name, all);
        Settle(store, before, start, c);
      case true =>
        snapshot, outcome, c := store.CloneProfile(binding, id, name, flag, if now < 0 then 0 else now, all);
        Settle(store, before, start, c);
      case true =>
        var change := if now < 0 then DismissNotice else if flag then Change.Rename(id, name) else Switch(id);
        snapshot, outcome := store.Update(binding, change, all);
        Settle(store, before, start, change);
      case true =>
        outcome, c := store.SaveActiveProfile(binding, text, all);
        Settle(store, before, start, c);
      case true =>
        snapshot, outcome := store.DeleteProfile(binding, id, all);
        Settle(store, before, start, Delete(id));
      case true =>
        snapshot, outcome := store.List(binding, all);
      case true =>
        configuration, outcome := store.Read(binding, id, all);
      case true =>
        store.directory.Stop();
        HaltKeepsInv(env, before, store.directory.disk, all);
        EmptyHalts(env, before, store.directory.disk);
        outcome := Interrupted;
    }
    if outcome == Interrupted && env.steady {
      QuietDecides(env, store.directory.disk, all);
    }
  }

  /** The call has told what became of the store; a loss of power is no failure of the program. */
  predicate Orderly(env: Environment, outcome: Outcome) {
    outcome != Error && (outcome == Interrupted ==> env.steady)
  }

  lemma Settle(store: ProfileStore, before: StoreDisk, start: Store, c: Change)
    requires Sound(start) && Inv(store.directory.env, before, AllReachable(start))
    requires store.Leaves(Outcomes(store.directory.env, before, AllReachable(start),
                                   After(Contents(LiveView(before)), c)))
    ensures store.Leaves(AllReachable(start))
  {
    hide Inv, LiveView, Contents, Changed, Sound, Permitted, Outcomes;
    var env, all := store.directory.env, AllReachable(start);
    ReachableIsClosed(env, before, start, c);
    MorePossible(env, store.directory.disk, Outcomes(env, before, all, After(Contents(LiveView(before)), c)), all);
  }

  /** Any run of calls, on either disk, for any hardware profiles, with failures, syncs included, kills and
      losses of power at any step. Whatever a crash leaves is what some sequence of complete, permitted
      changes leads to, and as long as no call ended in an error and nothing was killed it is the store
      of the moment. */
  method AnyRun(store: ProfileStore, bindings: seq<string>, ghost start: Store) returns (outcomes: seq<Outcome>)
    requires store.Valid() && store.Leaves(iset{start}) && Sound(start)
    modifies store, store.directory
    ensures store.Valid() && store.Leaves(AllReachable(start)) && |outcomes| == |bindings|
    ensures (forall o | o in outcomes :: Orderly(store.directory.env, o)) ==> store.Leaves(iset{store.Current()})
  {
    hide Inv, LiveView, Contents, Sound;
    outcomes := [];
    StartIsReachable(start);
    LiveIsPossible(store.directory.env, store.directory.disk, iset{start});
    MorePossible(store.directory.env, store.directory.disk, iset{start}, AllReachable(start));
    for i := 0 to |bindings|
      invariant store.Valid() && store.Leaves(AllReachable(start)) && |outcomes| == i
      invariant (forall o | o in outcomes :: Orderly(store.directory.env, o)) ==> store.Leaves(iset{store.Current()})
    {
      var outcome := AnyCall(store, bindings[i], start);
      assert forall o | o in outcomes :: o in outcomes + [outcome];
      assert outcome in outcomes + [outcome];
      outcomes := outcomes + [outcome];
    }
  }
}
