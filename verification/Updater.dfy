/** The replacement of the installed AppImage and its recovery (internal/update/updater.go).

    `trusted` stands for a set of complete images. The invariant says that whatever a power loss
    leaves behind, a complete image of that set can be started or recovered. Every method keeps
    it after every system call, for any `trusted` it held of, but for one step: a recovery that
    drops the backup while the installed name is not durable yet. Only Apply adds to the set, and
    only images with the digest of the verified release. */
module Updater {
  import opened Bytes
  import opened DurableDirectory

  type Image = seq<byte>

  datatype Name = Installed | Backup | Temporary | Marker

  type InstallEntries = Entries<Name>
  type InstallDisk = Disk<Name, Image>
  type Files = map<nat, File<Image>>

  /** `name` is a synced file holding one of the trusted images. */
  ghost predicate Complete(entries: InstallEntries, files: Files, trusted: iset<Image>, name: Name) {
    && name in entries && entries[name] in files
    && files[entries[name]].synced && files[entries[name]].data in trusted
  }

  /** The installed image is complete, or it is absent while the marker and a complete backup
      show how to restore it. */
  ghost predicate Recoverable(entries: InstallEntries, files: Files, trusted: iset<Image>) {
    if Installed in entries then Complete(entries, files, trusted, Installed)
    else Marker in entries && Complete(entries, files, trusted, Backup)
  }

  /** A backup is complete and kept only under a marker. */
  ghost predicate Safe(entries: InstallEntries, files: Files, trusted: iset<Image>) {
    && Recoverable(entries, files, trusted)
    && (Backup in entries ==> Marker in entries && Complete(entries, files, trusted, Backup))
  }

  /** The operations on the installed, backup or marker name. */
  predicate Critical(op: Op<Name>) {
    match op
    case Link(name, _) => name != Temporary
    case Unlink(name) => name != Temporary
    case Rename(_, _) => true
  }

  function CriticalOps(log: seq<Op<Name>>): (ops: seq<Op<Name>>)
    ensures |ops| <= |log|
  {
    if log == [] then []
    else
      var op := log[|log| - 1];
      CriticalOps(log[..|log| - 1]) + (if Critical(op) then [op] else [])
  }

  /** Whatever survives a power loss is safe, and under steady circumstances at most one critical
      operation is unsynced. */
  ghost predicate Inv(env: Environment, disk: InstallDisk, trusted: iset<Image>) {
    && (forall kept | Survives(env, kept, disk.log) :: Safe(Replay(disk.durable, kept), disk.files, trusted))
    && (env.steady ==> |CriticalOps(disk.log)| <= 1)
  }

  /** Under steady circumstances the only critical operation that is unsynced between calls is the
      creation of a marker when there is no backup. */
  ghost predicate AtRest(env: Environment, disk: InstallDisk) {
    env.steady && CriticalOps(disk.log) != [] ==>
      |CriticalOps(disk.log)| == 1 && CriticalOps(disk.log)[0].Link? && Backup !in disk.Live()
  }

  /** The entries agree on everything but the temporary name. */
  ghost predicate SameInstallation(left: InstallEntries, right: InstallEntries) {
    forall name | name != Temporary ::
      (name in left <==> name in right) && (name in left && name in right ==> left[name] == right[name])
  }

  // ------------------------------------------------------------------ what crashes keep

  /** An operation that leaves safe entries safe. */
  ghost predicate Harmless(entries: InstallEntries, files: Files, trusted: iset<Image>, op: Op<Name>) {
    match op
    case Link(name, _) => name == Temporary || name == Marker
    case Unlink(name) =>
      && (name == Backup ==> Installed in entries)
      && (name == Marker ==> Backup !in entries)
      && name != Installed
    case Rename(source, target) =>
      || (source == Installed && target == Backup && (Installed in entries ==> Marker in entries))
      || (source == Temporary && target == Installed
          && (Temporary in entries ==> Complete(entries, files, trusted, Temporary)))
      || (source == Backup && target == Installed)
  }

  lemma HarmlessKeepsSafe(entries: InstallEntries, files: Files, trusted: iset<Image>, op: Op<Name>)
    requires Safe(entries, files, trusted) && Harmless(entries, files, trusted, op)
    ensures Safe(Perform(entries, op), files, trusted)
  {
  }

  /** The operation is harmless wherever it may end up among what survives. */
  ghost predicate Allowed(env: Environment, disk: InstallDisk, op: Op<Name>, trusted: iset<Image>) {
    && (forall kept | Survives(env, kept, disk.log) && (env.ordered ==> kept == disk.log) ::
          Harmless(Replay(disk.durable, kept), disk.files, trusted, op))
    && (env.steady && Critical(op) ==> CriticalOps(disk.log) == [])
  }

  /** An operation that is allowed keeps every surviving directory safe. */
  lemma AllowedKeepsInv(env: Environment, disk: InstallDisk, op: Op<Name>, trusted: iset<Image>)
    requires Inv(env, disk, trusted) && Allowed(env, disk, op, trusted)
    ensures Inv(env, disk.Issue(op), trusted)
    ensures disk.Issue(op).Live() == Perform(disk.Live(), op)
    ensures CriticalOps(disk.Issue(op).log) == CriticalOps(disk.log) + (if Critical(op) then [op] else [])
  {
    hide Safe, Harmless, Critical;
    var next := disk.Issue(op);
    ReplayIssue(disk.durable, disk.log, op);
    assert next.log[..|disk.log|] == disk.log;
    forall kept | Survives(env, kept, next.log)
      ensures Safe(Replay(disk.durable, kept), disk.files, trusted)
    {
      SurvivesIssue(env, kept, disk.log, op);
      if !Survives(env, kept, disk.log) {
        var front := kept[..|kept| - 1];
        ReplayIssue(disk.durable, front, op);
        AllSurvive(env, disk.log);
        HarmlessKeepsSafe(Replay(disk.durable, front), disk.files, trusted, op);
      }
    }
  }

  /** Nothing waits for a sync: only the entries of the moment matter. */
  lemma AllowedWhenSynced(env: Environment, disk: InstallDisk, op: Op<Name>, trusted: iset<Image>)
    requires disk.log == [] && Harmless(disk.Live(), disk.files, trusted, op)
    ensures Allowed(env, disk, op, trusted)
  {
  }

  /** Marking, restoring the backup and everything about the temporary name are allowed whatever waits
      for a sync. */
  lemma AllowedAlways(env: Environment, disk: InstallDisk, op: Op<Name>, trusted: iset<Image>)
    requires op == Op.Rename(Backup, Installed) || (op.Link? && op.name == Marker) || !Critical(op)
    requires env.steady && Critical(op) ==> CriticalOps(disk.log) == []
    ensures Allowed(env, disk, op, trusted)
  {
  }

  /** Operations on the temporary name are always allowed. */
  lemma TemporaryKeepsInv(env: Environment, disk: InstallDisk, op: Op<Name>, trusted: iset<Image>)
    requires Inv(env, disk, trusted) && !Critical(op)
    ensures Inv(env, disk.Issue(op), trusted)
    ensures SameInstallation(disk.Issue(op).Live(), disk.Live())
    ensures CriticalOps(disk.Issue(op).log) == CriticalOps(disk.log)
  {
    hide Inv, Allowed, Replay;
    AllowedAlways(env, disk, op, trusted);
    AllowedKeepsInv(env, disk, op, trusted);
  }

  lemma {:induction false} NothingCritical(entries: InstallEntries, kept: seq<Op<Name>>, log: seq<Op<Name>>)
    requires Subsequence(kept, log) && CriticalOps(log) == []
    ensures SameInstallation(Replay(entries, kept), entries)
  {
    if log != [] {
      if Subsequence(kept, log[..|log| - 1]) {
        NothingCritical(entries, kept, log[..|log| - 1]);
      } else {
        NothingCritical(entries, kept[..|kept| - 1], log[..|log| - 1]);
      }
    }
  }

  lemma LiveIsSafe(env: Environment, disk: InstallDisk, trusted: iset<Image>)
    requires Inv(env, disk, trusted)
    ensures Safe(disk.Live(), disk.files, trusted)
  {
    AllSurvive(env, disk.log);
  }

  /** A loss of power and, unless the circumstances are steady, a kill. */
  lemma HaltKeepsInv(env: Environment, before: InstallDisk, after: InstallDisk, trusted: iset<Image>)
    requires Inv(env, before, trusted) && Halts(env, before, after)
    ensures Inv(env, after, trusted) && AtRest(env, after)
  {
    if PowerLoss(env, before, after) {
      var kept :| Survives(env, kept, before.log) && after.durable == Replay(before.durable, kept);
      assert Safe(after.durable, after.files, trusted);
    }
  }

  /** After a sync only what the program sees matters. */
  lemma SyncedIsSafe(env: Environment, disk: InstallDisk, trusted: iset<Image>)
    requires Safe(disk.Live(), disk.files, trusted)
    ensures Inv(env, disk.Synced(), trusted)
  {
  }

  /** Files that are not synced may change, and new ones appear. */
  lemma FilesKeepInv(env: Environment, disk: InstallDisk, files: Files, trusted: iset<Image>)
    requires Inv(env, disk, trusted)
    requires forall i | i in disk.files && disk.files[i].synced :: i in files && files[i] == disk.files[i]
    ensures Inv(env, disk.(files := files), trusted)
  {
    forall kept | Survives(env, kept, disk.log)
      ensures Safe(Replay(disk.durable, kept), files, trusted)
    {
      assert Safe(Replay(disk.durable, kept), disk.files, trusted);
    }
  }

  lemma MoreTrust(env: Environment, disk: InstallDisk, trusted: iset<Image>, more: iset<Image>)
    requires Inv(env, disk, trusted) && trusted <= more
    ensures Inv(env, disk, more)
  {
    forall kept | Survives(env, kept, disk.log)
      ensures Safe(Replay(disk.durable, kept), disk.files, more)
    {
      assert Safe(Replay(disk.durable, kept), disk.files, trusted);
    }
  }

  /** However a system call ends, the invariant holds if it holds where the call meant to go. */
  lemma EndKeepsInv(
    env: Environment, before: InstallDisk, intended: InstallDisk, after: InstallDisk, status: Status,
    trusted: iset<Image>)
    requires Ends(env, before, intended, after, status)
    requires Inv(env, before, trusted) && Inv(env, intended, trusted)
    ensures Inv(env, after, trusted)
    ensures status == Stopped ==> AtRest(env, after)
  {
    if status == Stopped {
      if Halts(env, before, after) {
        HaltKeepsInv(env, before, after, trusted);
      } else {
        HaltKeepsInv(env, intended, after, trusted);
      }
    }
  }

  /** Whatever the moment of the crash, one recovery later a trusted image is installed. */
  lemma RestartFindsImage(env: Environment, before: InstallDisk, after: InstallDisk, trusted: iset<Image>)
    requires Inv(env, before, trusted) && Halts(env, before, after)
    ensures Complete(if Marker in after.Live() then Recovered(after.Live()) else after.Live(),
                     after.files, trusted, Installed)
  {
    HaltKeepsInv(env, before, after, trusted);
    LiveIsSafe(env, after, trusted);
  }

  /** A plain installation, as an installer leaves it. */
  lemma FreshInstallation(env: Environment, inode: nat, image: Image)
    ensures var disk: InstallDisk := Disk(map[Installed := inode], [], map[inode := File(image, true)]);
            Inv(env, disk, iset{image}) && AtRest(env, disk)
  {
  }

  // ------------------------------------------------------------------ dropping the backup

  /** The installed name is there whatever a loss of power keeps. */
  ghost predicate InstalledIsDurable(env: Environment, disk: InstallDisk) {
    forall kept | Survives(env, kept, disk.log) && (env.ordered ==> kept == disk.log) ::
      Installed in Replay(disk.durable, kept)
  }

  /** The next recovery drops a backup that may still be needed. */
  predicate Risky(env: Environment, disk: InstallDisk) {
    && Marker in disk.Live() && Installed in disk.Live() && Backup in disk.Live()
    && exists e | e in Bases(env, disk.durable, disk.log) :: Installed !in e
  }

  lemma RiskyIs(env: Environment, disk: InstallDisk)
    ensures Risky(env, disk) <==>
              && Marker in disk.Live() && Installed in disk.Live() && Backup in disk.Live()
              && !InstalledIsDurable(env, disk)
  {
    if e :| e in Bases(env, disk.durable, disk.log) && Installed !in e {
      var kept := BaseSurvives(env, disk.durable, disk.log, e);
      assert !InstalledIsDurable(env, disk);
    }
    forall kept | Survives(env, kept, disk.log) && (env.ordered ==> kept == disk.log)
      ensures Replay(disk.durable, kept) in Bases(env, disk.durable, disk.log)
    {
      SurvivorIsBase(env, disk.durable, kept, disk.log);
    }
  }

  /** When exactly the backup may be dropped: a loss of power then leaves an image if and only if the
      installed name is durable. */
  lemma DroppingBackupIff(env: Environment, disk: InstallDisk, trusted: iset<Image>)
    requires Inv(env, disk, trusted)
    ensures (forall kept | Survives(env, kept, disk.log + [Op.Unlink(Backup)]) ::
               Recoverable(Replay(disk.durable, kept), disk.files, trusted))
       <==> InstalledIsDurable(env, disk)
  {
    var op := Op.Unlink(Backup);
    if forall kept | Survives(env, kept, disk.log + [op]) ::
         Recoverable(Replay(disk.durable, kept), disk.files, trusted)
    {
      forall kept | Survives(env, kept, disk.log) && (env.ordered ==> kept == disk.log)
        ensures Installed in Replay(disk.durable, kept)
      {
        IssueSurvives(env, kept, disk.log, op);
        ReplayIssue(disk.durable, kept, op);
        assert Recoverable(Replay(disk.durable, kept + [op]), disk.files, trusted);
      }
    }
    if InstalledIsDurable(env, disk) {
      forall kept | Survives(env, kept, disk.log + [op])
        ensures Recoverable(Replay(disk.durable, kept), disk.files, trusted)
      {
        SurvivesIssue(env, kept, disk.log, op);
        if Survives(env, kept, disk.log) {
          assert Safe(Replay(disk.durable, kept), disk.files, trusted);
        } else {
          AllSurvive(env, disk.log);
          ReplayIssue(disk.durable, kept[..|kept| - 1], op);
          assert Safe(Replay(disk.durable, kept[..|kept| - 1]), disk.files, trusted);
        }
      }
    }
  }

  /** In the program's terms: with marker, image and backup in sight, a recovery can lose every image if
      and only if what it sees is risky. */
  lemma RecoveryLosesIff(env: Environment, disk: InstallDisk, trusted: iset<Image>)
    requires Inv(env, disk, trusted)
    requires Marker in disk.Live() && Installed in disk.Live() && Backup in disk.Live()
    ensures Risky(env, disk) <==>
              exists kept :: Survives(env, kept, disk.log + [Op.Unlink(Backup)])
                        && !Recoverable(Replay(disk.durable, kept), disk.files, trusted)
  {
    hide Risky, Inv, InstalledIsDurable, Recoverable;
    RiskyIs(env, disk);
    DroppingBackupIff(env, disk, trusted);
  }

  lemma DurableMayDrop(env: Environment, disk: InstallDisk, trusted: iset<Image>)
    requires InstalledIsDurable(env, disk) && (env.steady ==> CriticalOps(disk.log) == [])
    ensures Allowed(env, disk, Op.Unlink(Backup), trusted)
  {
  }

  /** An ordered disk and steady circumstances are each enough; so is a sync just before. */
  lemma NeverRisky(env: Environment, disk: InstallDisk)
    requires env.ordered || (env.steady && AtRest(env, disk)) || disk.log == []
    ensures !Risky(env, disk)
  {
    hide Risky;
    RiskyIs(env, disk);
    if Installed in disk.Live() && Backup in disk.Live() {
      forall kept | Survives(env, kept, disk.log) && (env.ordered ==> kept == disk.log)
        ensures Installed in Replay(disk.durable, kept)
      {
        if !env.ordered {
          AllSurvive(env, disk.log);
          if disk.log != [] {
            NothingCritical(disk.durable, kept, disk.log);
            NothingCritical(disk.durable, disk.log, disk.log);
          }
        }
      }
    }
  }

  // ------------------------------------------------------------------ the updater

  /** What recovery makes of an installation whose marker is present. */
  function Recovered(entries: InstallEntries): InstallEntries {
    if Installed in entries || Backup !in entries then entries - {Backup, Marker}
    else entries[Installed := entries[Backup]] - {Backup, Marker}
  }

  /** The installed image becomes the backup and the temporary file the installed image. */
  function Swapped(entries: InstallEntries): InstallEntries
    requires Installed in entries && Temporary in entries
  {
    (entries - {Temporary})[Backup := entries[Installed]][Installed := entries[Temporary]]
  }

  lemma OnlyInstalled(entries: InstallEntries)
    requires Installed in entries && Temporary !in entries
    ensures Recovered(entries).Keys == {Installed} && Recovered(entries)[Installed] == entries[Installed]
  {
    forall name | name in Recovered(entries) ensures name == Installed {
      assert name.Installed? || name.Backup? || name.Temporary? || name.Marker?;
    }
  }

  const PENDING: Image := [112, 101, 110, 100, 105, 110, 103, 10]

  // ------------------------------------------------------------------ the order of the system calls

  type Calls = seq<Called<Name, Image>>
  type Plan = seq<SystemCall<Name, Image>>

  const FILL: Plan := [CallWrite(0, []), CallSyncFile(0), CallOther]
  const PUBLISH: Plan := FILL + [CallSync]
  const PREPARE: Plan := [CallUnlink(Temporary), CallCreate(Temporary, 0)] + PUBLISH
  const MARK: Plan := [CallCreate(Marker, 0)] + PUBLISH
  const SWAP: Plan := [CallRename(Installed, Backup), CallSync, CallRename(Temporary, Installed), CallSync]

  /** Everything between the first recovery and the last one. */
  const INSTALL: Plan := PREPARE + MARK + SWAP

  function RecoveryPlan(marked: bool, installed: bool): Plan {
    if !marked then [CallExists(Marker)]
    else
      [ CallExists(Marker), CallExists(Installed),
        if installed then CallUnlink(Backup) else CallRename(Backup, Installed),
        CallSync, CallUnlink(Marker), CallSync ]
  }

  /** A call without the inode and the data, which vary. */
  function Shape(call: SystemCall<Name, Image>): SystemCall<Name, Image> {
    match call
    case CallCreate(name, _) => CallCreate(name, 0)
    case CallWrite(_, _) => CallWrite(0, [])
    case CallSyncFile(_) => CallSyncFile(0)
    case _ => call
  }

  function Shapes(calls: Calls): (plan: Plan)
    ensures |plan| == |calls|
  {
    seq(|calls|, i requires 0 <= i < |calls| => Shape(calls[i].call))
  }

  /** The calls made meanwhile are the first of a plan, and all of them when it was completed. */
  predicate Follows(before: Calls, after: Calls, plan: Plan, complete: bool) {
    && before <= after
    && Shapes(after[|before|..]) <= plan
    && (complete ==> Shapes(after[|before|..]) == plan)
  }

  lemma NoCall(calls: Calls, plan: Plan)
    ensures Follows(calls, calls, plan[..0], true) && Follows(calls, calls, plan, false)
  {
  }

  /** Part of a plan is followed after the first `k` calls of it. */
  lemma NextCalls(before: Calls, between: Calls, after: Calls, plan: Plan, k: nat, part: Plan, complete: bool)
    requires k + |part| <= |plan| && plan[k..k + |part|] == part
    requires Follows(before, between, plan[..k], true) && Follows(between, after, part, complete)
    ensures |before| <= |between| <= |after|
    ensures complete ==> Follows(before, after, plan[..k + |part|], true)
    ensures Follows(before, after, plan, false)
    ensures Follows(before, after, plan, complete && k + |part| == |plan|)
  {
    var first, second := between[|before|..], after[|between|..];
    assert after == between + second;
    assert after[|before|..] == first + second;
    assert Shapes(first + second) == Shapes(first) + Shapes(second);
    assert Shapes(second) == part[..|second|];
    assert plan[..k] + part[..|second|] == plan[..k + |second|];
    assert plan[..|plan|] == plan;
  }

  lemma NextCall(before: Calls, between: Calls, called: Called<Name, Image>, plan: Plan, k: nat)
    requires k < |plan| && plan[k] == Shape(called.call)
    requires Follows(before, between, plan[..k], true)
    ensures Follows(before, between + [called], plan[..k + 1], true)
    ensures Follows(before, between + [called], plan, false)
    ensures Follows(before, between + [called], plan, k + 1 == |plan|)
  {
    assert (between + [called])[|between|..] == [called];
    assert Shapes([called]) == [plan[k]];
    NextCalls(before, between, between + [called], plan, k, [plan[k]], true);
  }

  lemma SyncedRests(env: Environment, disk: InstallDisk)
    ensures AtRest(env, disk.Synced()) && (disk.log == [] ==> AtRest(env, disk))
  {
  }

  /** Between calls under steady circumstances nothing critical waits when there is a backup. */
  lemma MarkerRests(env: Environment, disk: InstallDisk, inode: nat)
    requires disk.log == [Link(Marker, inode)] && Backup !in disk.Live()
    ensures AtRest(env, disk)
  {
    assert disk.log[..0] == [];
  }

  lemma RestingAllows(env: Environment, disk: InstallDisk)
    requires AtRest(env, disk)
    ensures env.steady && Backup in disk.Live() ==> CriticalOps(disk.log) == []
  {
  }

  // ------------------------------------------------------------------ an update that is lost

  type Disks = seq<InstallDisk>

  lemma Publishes(env: Environment, disks: Disks, calls: Calls, name: Name, inode: nat, image: Image)
    returns (moreDisks: Disks, moreCalls: Calls)
    requires Trace(env, disks, calls, []) && |disks| == |calls| + 1
    requires var d := disks[|calls|]; d.log == [] && name !in d.durable && inode !in d.files
    ensures Trace(env, moreDisks, moreCalls, []) && |moreDisks| == |moreCalls| + 1
    ensures var d := disks[|calls|];
            moreDisks[|moreCalls|] == Disk(d.durable[name := inode], [], d.files[inode := File(image, true)])
    ensures moreCalls == calls + [Called(CallCreate(name, inode), OK), Called(CallWrite(inode, image), OK),
                                  Called(CallSyncFile(inode), OK), Called(CallOther, OK), Called(CallSync, OK)]
    ensures disks <= moreDisks
  {
    hide Trace;
    var d := disks[|calls|];
    var linked := Disk(d.durable, [Link(name, inode)], d.files[inode := File([], false)]);
    ReplayIssue(d.durable, [], Link(name, inode));
    assert [] + [Link(name, inode)] == [Link(name, inode)];
    assert linked == d.Linked(name, inode, []);
    moreDisks, moreCalls := TraceStep(env, disks, calls, [], Called(CallCreate(name, inode), OK), linked);
    var written := linked.(files := linked.files[inode := File(image, false)]);
    moreDisks, moreCalls := TraceStep(env, moreDisks, moreCalls, [], Called(CallWrite(inode, image), OK), written);
    var filled := written.(files := written.files[inode := File(image, true)]);
    moreDisks, moreCalls := TraceStep(env, moreDisks, moreCalls, [], Called(CallSyncFile(inode), OK), filled);
    moreDisks, moreCalls := TraceStep(env, moreDisks, moreCalls, [], Called(CallOther, OK), filled);
    moreDisks, moreCalls := TraceStep(env, moreDisks, moreCalls, [], Called(CallSync, OK), filled.Synced());
    assert filled.files == d.files[inode := File(image, true)];
  }

  /** The durable entries and the files once the marker is there. */
  const MARKED: InstallEntries := map[Installed := 0, Temporary := 1, Marker := 2]

  function AllFiles(previous: Image, next: Image): Files {
    map[0 := File(previous, true), 1 := File(next, true), 2 := File(PENDING, true)]
  }

  function PublishCalls(name: Name, inode: nat, image: Image): Calls {
    [ Called(CallCreate(name, inode), OK), Called(CallWrite(inode, image), OK), Called(CallSyncFile(inode), OK),
      Called(CallOther, OK), Called(CallSync, OK) ]
  }

  /** The calls of an update that goes well until the new image is moved into place. */
  function CallsToSwap(next: Image): Calls {
    [Called(CallExists(Marker), OK), Called(CallUnlink(Temporary), NotFound)]
    + PublishCalls(Temporary, 1, next) + PublishCalls(Marker, 2, PENDING)
    + [ Called(CallRename(Installed, Backup), OK), Called(CallSync, OK), Called(CallRename(Temporary, Installed), OK) ]
  }

  lemma CallsToSwapAreApplys(next: Image)
    ensures Shapes(CallsToSwap(next)) == RecoveryPlan(false, true) + INSTALL[..|INSTALL| - 1]
  {
  }

  lemma ReplayOne(entries: InstallEntries, op: Op<Name>)
    ensures Replay(entries, [op]) == Perform(entries, op)
  {
    assert [op][..0] == [];
  }

  lemma MarksPlainInstallation(env: Environment, previous: Image, next: Image) returns (disks: Disks, calls: Calls)
    ensures Trace(env, disks, calls, []) && |disks| == |calls| + 1
    ensures disks[0] == Disk(map[Installed := 0], [], map[0 := File(previous, true)])
    ensures disks[|calls|] == Disk(MARKED, [], AllFiles(previous, next))
    ensures calls == CallsToSwap(next)[..12]
  {
    hide Trace, Ends, Intended;
    var plain: InstallDisk := Disk(map[Installed := 0], [], map[0 := File(previous, true)]);
    disks, calls := [plain], [];
    NoTrace(env, plain);
    LooksAndFindsNothing(env, plain);
    disks, calls := TraceStep(env, disks, calls, [], Called(CallExists(Marker), OK), plain);
    disks, calls := TraceStep(env, disks, calls, [], Called(CallUnlink(Temporary), NotFound), plain);
    disks, calls := Publishes(env, disks, calls, Temporary, 1, next);
    disks, calls := Publishes(env, disks, calls, Marker, 2, PENDING);
    assert disks[|calls|].files == AllFiles(previous, next);
  }

  lemma LooksAndFindsNothing(env: Environment, disk: InstallDisk)
    requires Temporary !in disk.Live()
    ensures Ends(env, disk, Intended(disk, CallExists(Marker), []), disk, OK)
    ensures Ends(env, disk, Intended(disk, CallUnlink(Temporary), []), disk, NotFound)
  {
  }

  /** An update of a plain installation as far as the rename that puts the new image into place. */
  lemma SwapsUnsynced(env: Environment, previous: Image, next: Image) returns (disks: Disks, calls: Calls)
    ensures Trace(env, disks, calls, []) && |disks| == |calls| + 1
    ensures disks[0] == Disk(map[Installed := 0], [], map[0 := File(previous, true)])
    ensures disks[|calls|]
         == Disk(map[Backup := 0, Temporary := 1, Marker := 2], [Op.Rename(Temporary, Installed)],
              AllFiles(previous, next))
    ensures calls == CallsToSwap(next)
  {
    hide Trace, AllFiles, Intended, Halts, Perform;
    disks, calls := MarksPlainInstallation(env, previous, next);
    var files, swapped := AllFiles(previous, next), map[Backup := 0, Temporary := 1, Marker := 2];
    RenameOfSynced(MARKED, files, Installed, Backup);
    SyncOfRename(MARKED, files, Installed, Backup);
    RenameOfSynced(swapped, files, Temporary, Installed);
    MarkedIs();
    var saved: InstallDisk := Disk(MARKED, [Op.Rename(Installed, Backup)], files);
    disks, calls := TraceStep(env, disks, calls, [], Called(CallRename(Installed, Backup), OK), saved);
    disks, calls := TraceStep(env, disks, calls, [], Called(CallSync, OK), Disk(swapped, [], files));
    disks, calls := TraceStep(env, disks, calls, [], Called(CallRename(Temporary, Installed), OK),
                              Disk(swapped, [Op.Rename(Temporary, Installed)], files));
  }

  lemma RenameOfSynced(entries: InstallEntries, files: Files, source: Name, target: Name)
    requires source in entries
    ensures Intended(Disk(entries, [], files), CallRename(source, target), [])
         == Disk(entries, [Op.Rename(source, target)], files)
  {
    assert [] + [Op.Rename(source, target)] == [Op.Rename(source, target)];
  }

  lemma SyncOfRename(entries: InstallEntries, files: Files, source: Name, target: Name)
    ensures Intended(Disk(entries, [Op.Rename(source, target)], files), CallSync, [])
         == Disk(Perform(entries, Op.Rename(source, target)), [], files)
  {
    ReplayOne(entries, Op.Rename(source, target));
  }

  lemma MarkedIs()
    ensures Installed in MARKED
    ensures Perform(MARKED, Op.Rename(Installed, Backup)) == map[Backup := 0, Temporary := 1, Marker := 2]
  {
  }

  /** How the first sync after the swap may end without effect. */
  predicate Unsynced(status: Status) {
    status == Failed || status == Stopped
  }

  /** A program that is not killed removes the temporary file, which is gone already. */
  function Cleanup(status: Status): Calls {
    if status == Failed then [Called(CallUnlink(Temporary), NotFound)] else []
  }

  /** On a disk that keeps any of the unsynced operations, this is a run that loses every image: the sync of
      the swap fails, or the process is killed before it, then a recovery drops the backup, and a loss of
      power keeps the removal of the backup but not the rename before it. No other sync fails. */
  lemma LossIsReachable(env: Environment, previous: Image, next: Image, status: Status)
    returns (disks: Disks, calls: Calls)
    requires !env.ordered && !env.steady && Unsynced(status)
    ensures Trace(env, disks, calls, []) && |disks| == |calls| + 1
    ensures disks[0] == Disk(map[Installed := 0], [], map[0 := File(previous, true)])
    ensures calls == CallsToSwap(next) + [Called(CallSync, status)] + Cleanup(status)
                     + [Called(CallExists(Marker), OK), Called(CallExists(Installed), OK),
                       Called(CallUnlink(Backup), Stopped)]
    ensures var last := disks[|calls|]; last.log == [] && Installed !in last.Live() && Backup !in last.Live()
  {
    hide Trace, AllFiles;
    disks, calls := SwapsUnsynced(env, previous, next);
    var swapped := disks[|calls|];
    ReplayOne(swapped.durable, Op.Rename(Temporary, Installed));
    LooksAndFindsNothing(env, swapped);
    disks, calls := TraceStep(env, disks, calls, [], Called(CallSync, status), swapped);
    if status == Failed {
      disks, calls := TraceStep(env, disks, calls, [], Cleanup(status)[0], swapped);
    }
    disks, calls := TraceStep(env, disks, calls, [], Called(CallExists(Marker), OK), swapped);
    disks, calls := TraceStep(env, disks, calls, [], Called(CallExists(Installed), OK), swapped);
    var lost: InstallDisk := Disk(map[Temporary := 1, Marker := 2], [], AllFiles(previous, next));
    DropIsLost(env, swapped, lost);
    disks, calls := TraceStep(env, disks, calls, [], Called(CallUnlink(Backup), Stopped), lost);
  }

  lemma DropIsLost(env: Environment, swapped: InstallDisk, lost: InstallDisk)
    requires !env.ordered
    requires swapped.durable == map[Backup := 0, Temporary := 1, Marker := 2]
    requires swapped.log == [Op.Rename(Temporary, Installed)]
    requires lost == Disk(map[Temporary := 1, Marker := 2], [], swapped.files)
    ensures Ends(env, swapped, Intended(swapped, CallUnlink(Backup), []), lost, Stopped)
  {
    var drop := Op.Unlink(Backup);
    ReplayOne(swapped.durable, Op.Rename(Temporary, Installed));
    ReplayOne(swapped.durable, drop);
    var dropped := swapped.Issue(drop);
    assert dropped == swapped.Removed(Backup);
    assert Subsequence([drop], dropped.log) by {
      assert dropped.log[..1] == swapped.log && [drop][..0] == [];
      assert swapped.log[..0] == [];
      assert Subsequence([], swapped.log);
    }
    assert PowerLoss(env, dropped, lost);
  }

  lemma NoTrace(env: Environment, disk: InstallDisk)
    ensures Trace(env, [disk], [], [])
  {
  }

  type Digest = string

  /** A release that passed the manifest checks; Apply consumes it once. */
  class VerifiedUpdate {
    const digest: Digest
    const verified: bool
    var applied: bool

    constructor (digest: Digest, verified: bool)
      ensures this.digest == digest && this.verified == verified && !applied
    {
      this.digest, this.verified, applied := digest, verified, false;
    }
  }

  datatype Option<T> = None | Some(value: T)

  datatype Result =
    | Applied
    | ApprovalRequired
    | NotVerified
    | AlreadyApplied
    | NoTransport
    | Error
    | Interrupted // the machine lost power or the process was killed

  class Updater {
    const sha256: Image -> Digest
    const directory: Directory<Name, Image>
    const transport: bool

    constructor (sha256: Image -> Digest, directory: Directory<Name, Image>, transport: bool)
      ensures this.sha256 == sha256 && this.directory == directory && this.transport == transport
    {
      this.sha256, this.directory, this.transport := sha256, directory, transport;
    }

    ghost predicate Safely(trusted: iset<Image>)
      reads directory
    {
      Inv(directory.env, directory.disk, trusted)
    }

    ghost predicate Resting()
      reads directory
    {
      AtRest(directory.env, directory.disk)
    }

    ghost function Verified(digest: Digest): iset<Image> {
      iset image | sha256(image) == digest
    }

    ghost predicate Allows(op: Op<Name>, trusted: iset<Image>)
      reads directory
    {
      Allowed(directory.env, directory.disk, op, trusted)
    }

    /** What the program sees is safe. It need not survive a loss of power. */
    ghost predicate LooksSafe(trusted: iset<Image>)
      reads directory
    {
      Safe(directory.disk.Live(), directory.disk.files, trusted)
    }

    method UnlinkAt(name: Name, ghost trusted: iset<Image>) returns (status: Status)
      requires Safely(trusted) && (name in directory.disk.Live() ==> Allows(Op.Unlink(name), trusted))
      modifies directory
      ensures Safely(trusted) && (status == Stopped ==> Resting())
      ensures status == OK ==>
                && name in old(directory.disk.Live())
                && directory.disk == old(directory.disk).Issue(Op.Unlink(name))
                && directory.disk.Live() == old(directory.disk.Live()) - {name}
      ensures status == NotFound || status == Failed ==> directory.disk == old(directory.disk)
      ensures status == NotFound ==> name !in directory.disk.Live()
      ensures directory.calls == old(directory.calls) + [Called(CallUnlink(name), status)]
    {
      hide Inv, Allowed;
      ghost var before := directory.disk;
      ghost var intended := before.Removed(name);
      if name in before.Live() {
        AllowedKeepsInv(directory.env, before, Op.Unlink(name), trusted);
      }
      status := directory.Unlink(name);
      ReplayIssue(before.durable, before.log, Op.Unlink(name));
      EndKeepsInv(directory.env, before, intended, directory.disk, status, trusted);
    }

    method RenameAt(source: Name, target: Name, ghost trusted: iset<Image>) returns (status: Status)
      requires Safely(trusted)
      requires source in directory.disk.Live() && Allows(Op.Rename(source, target), trusted)
      modifies directory
      ensures Safely(trusted) && (status == Stopped ==> Resting())
      ensures status != NotFound
      ensures status == OK ==>
                && directory.disk == old(directory.disk).Issue(Op.Rename(source, target))
                && directory.disk.Live() == Perform(old(directory.disk.Live()), Op.Rename(source, target))
      ensures status == Failed ==> directory.disk == old(directory.disk)
      ensures directory.calls == old(directory.calls) + [Called(CallRename(source, target), status)]
    {
      hide Inv, Allowed;
      ghost var before := directory.disk;
      AllowedKeepsInv(directory.env, before, Op.Rename(source, target), trusted);
      status := directory.Rename(source, target);
      ReplayIssue(before.durable, before.log, Op.Rename(source, target));
      EndKeepsInv(directory.env, before, before.Issue(Op.Rename(source, target)), directory.disk, status, trusted);
    }

    /** `sure` says that the directory was safe before; a success makes it safe in any case. */
    method SyncUpdateDirectory(ghost sure: bool, ghost trusted: iset<Image>) returns (status: Status)
      requires (sure ==> Safely(trusted)) && LooksSafe(trusted)
      modifies directory
      ensures sure || status == OK ==> Safely(trusted)
      ensures (sure && status == Stopped) || status == OK ==> Resting()
      ensures status != NotFound && (status == Failed ==> !directory.env.steady)
      ensures status == OK ==> directory.disk == old(directory.disk).Synced()
      ensures status == Failed ==> directory.disk == old(directory.disk)
      ensures directory.calls == old(directory.calls) + [Called(CallSync, status)]
    {
      hide Inv;
      ghost var before := directory.disk;
      SyncedIsSafe(directory.env, before, trusted);
      status := directory.Sync();
      if sure {
        EndKeepsInv(directory.env, before, before.Synced(), directory.disk, status, trusted);
      }
      SyncedRests(directory.env, before);
    }

    method ExistsAt(name: Name, ghost trusted: iset<Image>) returns (found: bool, status: Status)
      requires Safely(trusted)
      modifies directory
      ensures Safely(trusted) && (status == Stopped ==> Resting())
      ensures status != NotFound && (status != Stopped ==> directory.disk == old(directory.disk))
      ensures status == OK ==> found == (name in old(directory.disk.Live()))
      ensures directory.calls == old(directory.calls) + [Called(CallExists(name), status)]
    {
      hide Inv;
      ghost var before := directory.disk;
      found, status := directory.Exists(name);
      EndKeepsInv(directory.env, before, before, directory.disk, status, trusted);
    }

    /** Creates the temporary file or the marker. */
    method CreateAt(name: Name, ghost trusted: iset<Image>) returns (inode: nat, status: Status)
      requires Safely(trusted) && (name == Temporary || name == Marker)
      requires name == Marker && directory.env.steady ==> CriticalOps(directory.disk.log) == []
      modifies directory
      ensures Safely(trusted) && (status == Stopped ==> Resting())
      ensures name == Temporary && old(Resting()) ==> Resting()
      ensures status == OK ==>
                && name !in old(directory.disk.Live()) && inode !in old(directory.disk.files)
                && directory.disk == old(directory.disk).Linked(name, inode, [])
                && directory.disk.Live() == old(directory.disk.Live())[name := inode]
      ensures status == NotFound || status == Failed ==> directory.disk == old(directory.disk)
      ensures directory.calls == old(directory.calls) + [Called(CallCreate(name, inode), status)]
    {
      hide Inv, Allowed;
      ghost var before := directory.disk;
      inode, status := directory.Create(name, []);
      if status == OK || status == Stopped {
        ghost var grown := before.(files := before.files[inode := File([], false)]);
        FilesKeepInv(directory.env, before, grown.files, trusted);
        AllowedAlways(directory.env, grown, Link(name, inode), trusted);
        AllowedKeepsInv(directory.env, grown, Link(name, inode), trusted);
        ReplayIssue(before.durable, before.log, Link(name, inode));
        EndKeepsInv(directory.env, before, before.Linked(name, inode, []), directory.disk, status, trusted);
      }
    }

    method WriteAt(inode: nat, data: Image, ghost trusted: iset<Image>) returns (status: Status)
      requires Safely(trusted) && inode in directory.disk.files && !directory.disk.files[inode].synced
      modifies directory
      ensures Safely(trusted) && (status == Stopped ==> Resting())
      ensures status == OK ==>
                directory.disk == old(directory.disk).(files := old(directory.disk.files)[inode := File(data, false)])
      ensures status == NotFound || status == Failed ==> directory.disk == old(directory.disk)
      ensures directory.calls == old(directory.calls) + [Called(CallWrite(inode, data), status)]
    {
      hide Inv;
      ghost var before := directory.disk;
      ghost var files := before.files[inode := File(data, false)];
      FilesKeepInv(directory.env, before, files, trusted);
      status := directory.Write(inode, data);
      EndKeepsInv(directory.env, before, before.(files := files), directory.disk, status, trusted);
    }

    method SyncFileAt(inode: nat, ghost trusted: iset<Image>) returns (status: Status)
      requires Safely(trusted) && inode in directory.disk.files && !directory.disk.files[inode].synced
      modifies directory
      ensures Safely(trusted) && (status == Stopped ==> Resting())
      ensures status == OK ==>
                directory.disk == old(directory.disk).(files := old(directory.disk.files)[inode :=
                  File(old(directory.disk.files)[inode].data, true)])
      ensures status == NotFound || status == Failed ==> directory.disk == old(directory.disk)
      ensures directory.calls == old(directory.calls) + [Called(CallSyncFile(inode), status)]
    {
      hide Inv;
      ghost var before := directory.disk;
      ghost var files := before.files[inode := before.files[inode].(synced := true)];
      FilesKeepInv(directory.env, before, files, trusted);
      status := directory.SyncFile(inode);
      EndKeepsInv(directory.env, before, before.(files := files), directory.disk, status, trusted);
    }

    /** Writes a new file, checks it, makes its contents durable and closes it. */
    method FillFile(inode: nat, data: Image, valid: bool, ghost trusted: iset<Image>) returns (status: Status)
      requires Safely(trusted) && inode in directory.disk.files && !directory.disk.files[inode].synced
      modifies directory
      ensures Safely(trusted) && (status == Stopped ==> Resting())
      ensures status != Stopped ==>
                && directory.disk.log == old(directory.disk.log)
                && directory.disk.durable == old(directory.disk.durable)
                && directory.disk.files.Keys == old(directory.disk.files.Keys)
                && forall i | i in directory.disk.files && i != inode ::
                     directory.disk.files[i] == old(directory.disk.files[i])
      ensures status == OK ==> valid && directory.disk.files[inode] == File(data, true)
      ensures |directory.calls| > |old(directory.calls)|
      ensures Follows(old(directory.calls), directory.calls, FILL, status == OK)
    {
      hide Inv, Follows, AtRest;
      ghost var c0 := directory.calls;
      NoCall(c0, FILL);
      status := WriteAt(inode, data, trusted);
      NextCall(c0, c0, Called(CallWrite(inode, data), status), FILL, 0);
      if status != OK || !valid {
        return if status == OK then Failed else status;
      }
      ghost var c1 := directory.calls;
      status := SyncFileAt(inode, trusted);
      NextCall(c0, c1, Called(CallSyncFile(inode), status), FILL, 1);
      if status != OK {
        return;
      }
      ghost var c2, synced := directory.calls, directory.disk;
      status := directory.Other();
      EndKeepsInv(directory.env, synced, synced, directory.disk, status, trusted);
      NextCall(c0, c2, Called(CallOther, status), FILL, 2);
    }

    /** Fills a new file and makes its entry durable as well. */
    method PublishFile(inode: nat, data: Image, valid: bool, ghost trusted: iset<Image>) returns (status: Status)
      requires Safely(trusted) && Resting()
      requires inode in directory.disk.files && !directory.disk.files[inode].synced
      modifies directory
      ensures Safely(trusted) && Resting()
      ensures status == OK ==>
                && valid && directory.disk.log == [] && directory.disk.Live() == old(directory.disk.Live())
                && directory.disk.files == old(directory.disk.files)[inode := File(data, true)]
      ensures |directory.calls| > |old(directory.calls)|
      ensures Follows(old(directory.calls), directory.calls, PUBLISH, status == OK)
    {
      hide Inv, Follows;
      ghost var c0 := directory.calls;
      NoCall(c0, PUBLISH);
      status := FillFile(inode, data, valid, trusted);
      NextCalls(c0, c0, directory.calls, PUBLISH, 0, FILL, status == OK);
      if status == OK {
        ghost var c1 := directory.calls;
        LiveIsSafe(directory.env, directory.disk, trusted);
        status := SyncUpdateDirectory(true, trusted);
        NextCall(c0, c1, Called(CallSync, status), PUBLISH, 3);
      }
    }

    /** Looks for an interrupted replacement and finishes it or takes it back. `gambled` says that it has
        dropped a backup that might still have been needed. */
    method Recover(ghost trusted: iset<Image>) returns (status: Status, gambled: bool)
      requires Safely(trusted) && Resting()
      modifies directory
      ensures !gambled || status == OK ==> Safely(trusted) && Resting()
      ensures gambled ==> old(Risky(directory.env, directory.disk))
      ensures status == OK ==> Installed in directory.disk.Live() && Marker !in directory.disk.Live()
      ensures status == OK && old(Marker in directory.disk.Live()) ==>
                && directory.disk.log == [] && directory.disk.files == old(directory.disk.files)
                && directory.disk.Live() == Recovered(old(directory.disk.Live()))
      ensures old(Marker !in directory.disk.Live()) && status != Stopped ==> directory.disk == old(directory.disk)
    {
      if * {
        return Failed, false; // the directory could not be opened
      }
      status, gambled := RecoverInstallation(trusted);
    }

    method RecoverInstallation(ghost trusted: iset<Image>) returns (status: Status, gambled: bool)
      requires Safely(trusted) && Resting()
      modifies directory
      ensures !gambled || status == OK ==> Safely(trusted) && Resting()
      ensures gambled ==> old(Risky(directory.env, directory.disk))
      ensures status == OK ==> Installed in directory.disk.Live() && Marker !in directory.disk.Live()
      ensures status == OK && old(Marker in directory.disk.Live()) ==>
                && directory.disk.log == [] && directory.disk.files == old(directory.disk.files)
                && directory.disk.Live() == Recovered(old(directory.disk.Live()))
      ensures old(Marker !in directory.disk.Live()) && status != Stopped ==> directory.disk == old(directory.disk)
      ensures Follows(old(directory.calls), directory.calls,
                      RecoveryPlan(old(Marker in directory.disk.Live()), old(Installed in directory.disk.Live())),
                      status == OK)
    {
      hide Inv, Follows;
      gambled := false;
      ghost var c0 := directory.calls;
      ghost var plan := RecoveryPlan(Marker in directory.disk.Live(), Installed in directory.disk.Live());
      NoCall(c0, plan);
      var pending, target;
      pending, status := ExistsAt(Marker, trusted);
      NextCall(c0, c0, Called(CallExists(Marker), status), plan, 0);
      if status != OK {
        return;
      }
      LiveIsSafe(directory.env, directory.disk, trusted);
      if !pending {
        return;
      }
      ghost var c1 := directory.calls;
      target, status := ExistsAt(Installed, trusted);
      NextCall(c0, c1, Called(CallExists(Installed), status), plan, 1);
      if status != OK {
        return;
      }
      ghost var c2 := directory.calls;
      status, gambled := SettleBackup(target, trusted);
      NextCall(c0, c2, Called(plan[2], directory.calls[|c2|].status), plan, 2);
      if status == OK {
        ghost var c3 := directory.calls;
        status := ClearMarker(!gambled, trusted);
        NextCalls(c0, c3, directory.calls, plan, 3, [CallSync, CallUnlink(Marker), CallSync], status == OK);
      }
    }

    /** Restores the backup, or drops it when the replacement got as far as the installed name. */
    method SettleBackup(target: bool, ghost trusted: iset<Image>) returns (status: Status, gambled: bool)
      requires Safely(trusted) && Resting()
      requires Marker in directory.disk.Live() && target == (Installed in directory.disk.Live())
      modifies directory
      ensures !gambled ==> Safely(trusted)
      ensures gambled <==> old(Risky(directory.env, directory.disk))
      ensures status != NotFound && (status != OK && !gambled ==> Resting())
      ensures status == OK ==>
                && directory.disk.files == old(directory.disk.files)
                && directory.disk.Live() - {Marker} == Recovered(old(directory.disk.Live()))
                && Installed in directory.disk.Live() && Marker in directory.disk.Live()
                && LooksSafe(trusted)
      ensures |directory.calls| == |old(directory.calls)| + 1
      ensures directory.calls == old(directory.calls) +
                [Called(if target then CallUnlink(Backup) else CallRename(Backup, Installed),
                        directory.calls[|old(directory.calls)|].status)]
    {
      hide Inv, Replay, Allowed, InstalledIsDurable, AtRest;
      if target {
        status, gambled := DropBackup(trusted);
        return;
      }
      gambled := false;
      LiveIsSafe(directory.env, directory.disk, trusted);
      RestingAllows(directory.env, directory.disk);
      AllowedAlways(directory.env, directory.disk, Op.Rename(Backup, Installed), trusted);
      status := RenameAt(Backup, Installed, trusted);
      if status == OK {
        LiveIsSafe(directory.env, directory.disk, trusted);
      }
    }

    method DropBackup(ghost trusted: iset<Image>) returns (status: Status, gambled: bool)
      requires Safely(trusted) && Resting()
      requires Marker in directory.disk.Live() && Installed in directory.disk.Live()
      modifies directory
      ensures !gambled ==> Safely(trusted)
      ensures gambled <==> old(Risky(directory.env, directory.disk))
      ensures status != NotFound && (status != OK && !gambled ==> Resting())
      ensures status == OK ==>
                && directory.disk.files == old(directory.disk.files)
                && directory.disk.Live() == old(directory.disk.Live()) - {Backup}
                && LooksSafe(trusted)
      ensures |directory.calls| == |old(directory.calls)| + 1
      ensures directory.calls == old(directory.calls) +
                [Called(CallUnlink(Backup), directory.calls[|old(directory.calls)|].status)]
    {
      hide Inv, Replay, Allowed, InstalledIsDurable, AtRest;
      ghost var env, before := directory.env, directory.disk;
      LiveIsSafe(env, before, trusted);
      RestingAllows(env, before);
      gambled := Risky(directory.env, directory.disk); // not in the program: it only tells what happened
      RiskyIs(env, before);
      status := directory.Unlink(Backup);
      ReplayIssue(before.durable, before.log, Op.Unlink(Backup));
      if !gambled {
        if Backup in before.Live() {
          DurableMayDrop(env, before, trusted);
          AllowedKeepsInv(env, before, Op.Unlink(Backup), trusted);
        }
        EndKeepsInv(env, before, before.Removed(Backup), directory.disk, status, trusted);
      }
      if status == NotFound {
        status := OK;
      }
    }

    /** The end of a recovery: the marker may go once the settled directory is durable. `sure` says that
        the directory was safe before. */
    method ClearMarker(ghost sure: bool, ghost trusted: iset<Image>) returns (status: Status)
      requires (sure ==> Safely(trusted)) && LooksSafe(trusted)
      requires Installed in directory.disk.Live() && Backup !in directory.disk.Live() && Marker in directory.disk.Live()
      modifies directory
      ensures sure || status == OK ==> Safely(trusted) && Resting()
      ensures status != NotFound
      ensures status == OK ==>
                && directory.disk.log == [] && directory.disk.files == old(directory.disk.files)
                && directory.disk.Live() == old(directory.disk.Live()) - {Marker}
      ensures Follows(old(directory.calls), directory.calls, [CallSync, CallUnlink(Marker), CallSync], status == OK)
    {
      hide Inv, Follows, Allowed;
      ghost var plan: Plan, c0 := [CallSync, CallUnlink(Marker), CallSync], directory.calls;
      NoCall(c0, plan);
      status := SyncUpdateDirectory(sure, trusted);
      NextCall(c0, c0, Called(CallSync, status), plan, 0);
      if status != OK {
        return;
      }
      ghost var c1, synced := directory.calls, directory.disk;
      AllowedWhenSynced(directory.env, directory.disk, Op.Unlink(Marker), trusted);
      status := UnlinkAt(Marker, trusted);
      NextCall(c0, c1, Called(CallUnlink(Marker), status), plan, 1);
      if status != OK {
        return;
      }
      ghost var c2 := directory.calls;
      LiveIsSafe(directory.env, directory.disk, trusted);
      status := SyncUpdateDirectory(true, trusted);
      NextCall(c0, c2, Called(CallSync, status), plan, 2);
    }

    // ---------------------------------------------------------------- applying an update

    method UnlinkTemporary(ghost trusted: iset<Image>) returns (status: Status)
      requires Safely(trusted) && Resting()
      modifies directory
      ensures Safely(trusted) && Resting()
      ensures status != Stopped ==>
                && directory.disk.files == old(directory.disk.files)
                && SameInstallation(directory.disk.Live(), old(directory.disk.Live()))
      ensures status == OK || status == NotFound ==> Temporary !in directory.disk.Live()
      ensures directory.calls == old(directory.calls) + [Called(CallUnlink(Temporary), status)]
    {
      hide Inv, Allowed;
      ghost var before := directory.disk;
      AllowedAlways(directory.env, before, Op.Unlink(Temporary), trusted);
      status := UnlinkAt(Temporary, trusted);
      if status == OK {
        TemporaryKeepsInv(directory.env, before, Op.Unlink(Temporary), trusted);
      }
    }

    /** Downloads into the temporary file. On success the file is durable, complete and verified. `created`
        says that the file must be removed if the update goes wrong. */
    method PrepareTemporary(contents: Image, digest: Digest, ghost trusted: iset<Image>)
      returns (created: bool, status: Status)
      requires Safely(trusted) && Resting()
      modifies directory
      ensures Safely(trusted) && Resting()
      ensures status == OK ==>
                && created && directory.disk.log == [] && sha256(contents) == digest
                && SameInstallation(directory.disk.Live(), old(directory.disk.Live()))
                && Temporary in directory.disk.Live()
                && var inode := directory.disk.Live()[Temporary];
                   && inode !in old(directory.disk.files)
                   && directory.disk.files == old(directory.disk.files)[inode := File(contents, true)]
      ensures Follows(old(directory.calls), directory.calls, PREPARE, status == OK)
      ensures created <==> |directory.calls| > |old(directory.calls)| + 2
    {
      hide Inv, Follows, Allowed;
      created := false;
      ghost var c0 := directory.calls;
      NoCall(c0, PREPARE);
      status := UnlinkTemporary(trusted);
      NextCall(c0, c0, Called(CallUnlink(Temporary), status), PREPARE, 0);
      if status == Stopped || status == Failed {
        return;
      }
      ghost var c1 := directory.calls;
      var inode;
      inode, status := CreateAt(Temporary, trusted);
      NextCall(c0, c1, Called(CallCreate(Temporary, inode), status), PREPARE, 1);
      if status != OK {
        return;
      }
      if * {
        return created, Failed; // the mode could not be restored
      }
      created := true;
      var arrived: int := *;
      var whole := !(0 <= arrived < |contents|);
      var body := if whole then contents else contents[..arrived];
      ghost var c2 := directory.calls;
      status := PublishFile(inode, body, whole && sha256(body) == digest, trusted);
      NextCalls(c0, c2, directory.calls, PREPARE, 2, PUBLISH, status == OK);
    }

    method WritePending(ghost trusted: iset<Image>) returns (status: Status)
      requires Safely(trusted) && directory.disk.log == []
      requires Installed in directory.disk.Live() && Marker !in directory.disk.Live()
      modifies directory
      ensures Safely(trusted) && Resting()
      ensures status == OK ==>
                && directory.disk.log == []
                && Marker in directory.disk.Live()
                && directory.disk.Live() - {Marker} == old(directory.disk.Live())
                && forall i | i in old(directory.disk.files) ::
                     i in directory.disk.files && directory.disk.files[i] == old(directory.disk.files[i])
      ensures Follows(old(directory.calls), directory.calls, MARK, status == OK)
    {
      hide Inv, Follows, CriticalOps, AtRest, Replay;
      LiveIsSafe(directory.env, directory.disk, trusted);
      SyncedRests(directory.env, directory.disk);
      ghost var c0, entries := directory.calls, directory.disk.Live();
      NoCall(c0, MARK);
      var inode;
      inode, status := CreateAt(Marker, trusted);
      NextCall(c0, c0, Called(CallCreate(Marker, inode), status), MARK, 0);
      if status != OK {
        return;
      }
      MarkerRests(directory.env, directory.disk, inode);
      assert entries[Marker := inode] - {Marker} == entries;
      ghost var c1 := directory.calls;
      status := PublishFile(inode, PENDING, true, trusted);
      NextCalls(c0, c1, directory.calls, MARK, 1, PUBLISH, status == OK);
    }

    method RenameDurably(source: Name, target: Name, ghost trusted: iset<Image>) returns (status: Status)
      requires Safely(trusted) && directory.disk.log == []
      requires source in directory.disk.Live() && Allows(Op.Rename(source, target), trusted)
      modifies directory
      ensures Safely(trusted) && Resting()
      ensures status == OK ==>
                && directory.disk.log == [] && directory.disk.files == old(directory.disk.files)
                && directory.disk.Live() == Perform(old(directory.disk.Live()), Op.Rename(source, target))
      ensures Follows(old(directory.calls), directory.calls, [CallRename(source, target), CallSync], status == OK)
    {
      hide Inv, Follows, Allowed;
      ghost var plan: Plan, c0 := [CallRename(source, target), CallSync], directory.calls;
      NoCall(c0, plan);
      status := RenameAt(source, target, trusted);
      NextCall(c0, c0, Called(CallRename(source, target), status), plan, 0);
      if status == OK {
        ghost var c1 := directory.calls;
        LiveIsSafe(directory.env, directory.disk, trusted);
        status := SyncUpdateDirectory(true, trusted);
        NextCall(c0, c1, Called(CallSync, status), plan, 1);
      }
    }

    /** Moves the installed image to the backup and the temporary file into its place. */
    method SwapImages(ghost trusted: iset<Image>) returns (status: Status)
      requires Safely(trusted) && directory.disk.log == []
      requires Installed in directory.disk.Live() && Marker in directory.disk.Live()
      requires Complete(directory.disk.Live(), directory.disk.files, trusted, Temporary)
      modifies directory
      ensures Safely(trusted) && Resting()
      ensures status == OK ==>
                && directory.disk.log == [] && directory.disk.files == old(directory.disk.files)
                && directory.disk.Live() == Swapped(old(directory.disk.Live()))
      ensures Follows(old(directory.calls), directory.calls, SWAP, status == OK)
    {
      hide Inv, Replay, Follows, Allowed;
      ghost var c0 := directory.calls;
      NoCall(c0, SWAP);
      AllowedWhenSynced(directory.env, directory.disk, Op.Rename(Installed, Backup), trusted);
      status := RenameDurably(Installed, Backup, trusted);
      NextCalls(c0, c0, directory.calls, SWAP, 0, [CallRename(Installed, Backup), CallSync], status == OK);
      if status == OK {
        ghost var c1 := directory.calls;
        AllowedWhenSynced(directory.env, directory.disk, Op.Rename(Temporary, Installed), trusted);
        status := RenameDurably(Temporary, Installed, trusted);
        NextCalls(c0, c1, directory.calls, SWAP, 2, [CallRename(Temporary, Installed), CallSync], status == OK);
      }
    }

    /** Everything up to the swap. A temporary file that was written to is removed again when anything goes
        wrong before the swap is complete; whether that works is ignored. `made` are the calls without
        that last one. */
    method Install(contents: Image, digest: Digest, ghost trusted: iset<Image>)
      returns (status: Status, ghost made: Calls)
      requires Safely(trusted) && Resting() && Verified(digest) <= trusted
      requires Installed in directory.disk.Live() && Marker !in directory.disk.Live()
      modifies directory
      ensures Safely(trusted) && Resting()
      ensures status == OK ==>
                && sha256(contents) == digest && directory.disk.log == []
                && Marker in directory.disk.Live() && Temporary !in directory.disk.Live()
                && Complete(directory.disk.Live(), directory.disk.files, iset{contents}, Installed)
      ensures Follows(old(directory.calls), made, INSTALL, status == OK)
      ensures status == OK ==> directory.calls == made
      ensures status != OK && status != Stopped ==>
                if |made| <= |old(directory.calls)| + 2 then directory.calls == made
                else RemovedAfter(made)
    {
      hide Inv, Replay, CriticalOps, Follows, Allowed;
      ghost var c0 := directory.calls;
      NoCall(c0, INSTALL);
      var created;
      created, status := PrepareTemporary(contents, digest, trusted);
      NextCalls(c0, c0, directory.calls, INSTALL, 0, PREPARE, status == OK);
      ghost var c1 := directory.calls;
      if status == OK {
        status := WritePending(trusted);
        NextCalls(c0, c1, directory.calls, INSTALL, |PREPARE|, MARK, status == OK);
      }
      ghost var c2 := directory.calls;
      if status == OK {
        status := SwapImages(trusted);
        NextCalls(c0, c2, directory.calls, INSTALL, |PREPARE| + |MARK|, SWAP, status == OK);
      }
      made := directory.calls;
      if status != OK && status != Stopped && created {
        var cleanup := UnlinkTemporary(trusted);
        if cleanup == Stopped {
          status := Stopped;
        }
      }
    }

    /** The last call was the removal of the temporary file, and if it worked the name is free. */
    ghost predicate RemovedAfter(made: Calls)
      reads directory
    {
      && |directory.calls| == |made| + 1
      && var last := directory.calls[|made|];
         && directory.calls == made + [last] && last.call == CallUnlink(Temporary)
         && (last.status == OK || last.status == NotFound ==> Temporary !in directory.disk.Live())
    }

    /** The part of Apply that changes files. The removal of the marker may still fail, but it cannot lose
        anything, since nothing is unsynced then. */
    method Replace(contents: Image, digest: Digest, ghost trusted: iset<Image>)
      returns (status: Status, ghost swapped: bool)
      requires Safely(trusted) && Resting() && Verified(digest) <= trusted
      requires Installed in directory.disk.Live() && Marker !in directory.disk.Live()
      modifies directory
      ensures Safely(trusted) && Resting()
      ensures status == OK ==>
                && sha256(contents) == digest
                && directory.disk.log == []
                && directory.disk.Live().Keys == {Installed}
                && Complete(directory.disk.Live(), directory.disk.files, iset{contents}, Installed)
      ensures status == OK ==> swapped
      ensures swapped ==>
                Follows(old(directory.calls), directory.calls, INSTALL + RecoveryPlan(true, true), status == OK)
      ensures !swapped && status != Stopped && |directory.calls| > |old(directory.calls)| + 2 ==>
                exists made :: RemovedAfter(made)
    {
      hide Inv, Follows, Risky, RemovedAfter;
      ghost var c0 := directory.calls;
      ghost var plan := INSTALL + RecoveryPlan(true, true);
      NoCall(c0, plan);
      ghost var made;
      status, made := Install(contents, digest, trusted);
      swapped := status == OK;
      if status == OK {
        ghost var entries := directory.disk.Live();
        var gambled;
        NextCalls(c0, c0, directory.calls, plan, 0, INSTALL, true);
        NeverRisky(directory.env, directory.disk);
        status, gambled := RecoverInstallation(trusted);
        NextCalls(c0, made, directory.calls, plan, |INSTALL|, RecoveryPlan(true, true), status == OK);
        OnlyInstalled(entries);
      }
    }

    /** `gambled` is about the recovery at the beginning. */
    method Apply(update: VerifiedUpdate?, approved: bool, download: Option<Image>, ghost trusted: iset<Image>)
      returns (result: Result, gambled: bool)
      requires Safely(trusted) && Resting()
      modifies directory, update
      ensures gambled ==> old(Risky(directory.env, directory.disk))
      ensures !gambled || result == Applied ==>
                && Resting()
                && Safely(if update == null then trusted else trusted + Verified(update.digest))
      ensures result == Applied ==>
                && approved && update != null && update.verified && !old(update.applied) && update.applied
                && download.Some? && sha256(download.value) == update.digest
                && directory.disk.log == []
                && directory.disk.Live().Keys == {Installed}
                && Complete(directory.disk.Live(), directory.disk.files, iset{download.value}, Installed)
      ensures result != Applied && update != null ==> update.applied == old(update.applied)
      ensures result == ApprovalRequired <==> !approved
      ensures result == NotVerified <==> approved && (update == null || !update.verified)
      ensures result == AlreadyApplied <==> approved && update != null && update.verified && old(update.applied)
      ensures result == NoTransport <==>
                approved && update != null && update.verified && !old(update.applied) && !transport
      ensures result in {ApprovalRequired, NotVerified, AlreadyApplied, NoTransport} ==>
                directory.disk == old(directory.disk) && !gambled
    {
      hide Inv, Risky;
      gambled := false;
      if !approved {
        if update != null {
          MoreTrust(directory.env, directory.disk, trusted, trusted + Verified(update.digest));
        }
        return ApprovalRequired, false;
      }
      if update == null {
        return NotVerified, false;
      }
      ghost var all := trusted + Verified(update.digest);
      MoreTrust(directory.env, directory.disk, trusted, all);
      if !update.verified {
        return NotVerified, false;
      }
      if update.applied {
        return AlreadyApplied, false;
      }
      if !transport {
        return NoTransport, false;
      }
      var status;
      status, gambled := Recover(all); // also opens the directory
      if status == OK {
        gambled := false;
        if download.None? {
          return Error, false;
        }
        if * {
          return Error, false; // the mode of the installed image could not be read
        }
        ghost var swapped;
        status, swapped := Replace(download.value, update.digest, all);
        if status == OK {
          update.applied := true;
          return Applied, false;
        }
      }
      return if status == Stopped then Interrupted else Error, gambled;
    }
  }

  /** Any run of the program, on either disk: calls in any order, for any updates and any downloads, with
      system calls failing, syncs included, and losses of power or kills within and between them. Unless
      some recovery has dropped a backup while the installed name was not durable, only images of the
      first installation or with the digest of one of the updates can be found installed or recoverable,
      and one of them always is. */
  method AnyRun(updater: Updater, updates: seq<VerifiedUpdate>, downloads: seq<Option<Image>>, ghost first: iset<Image>)
    returns (gambled: bool)
    requires updater.Safely(first) && updater.Resting()
    modifies updater.directory, updates
    ensures !gambled ==>
              && updater.Resting()
              && updater.Safely(first + iset image | exists u | u in updates :: updater.sha256(image) == u.digest)
    ensures updater.directory.env.ordered || updater.directory.env.steady ==> !gambled
  {
    hide Inv, Risky;
    ghost var all := first + iset image | exists u | u in updates :: updater.sha256(image) == u.digest;
    MoreTrust(updater.directory.env, updater.directory.disk, first, all);
    gambled := false;
    for i := 0 to |downloads|
      invariant updater.Safely(all) && updater.Resting() && !gambled
    {
      NeverRiskyIn(updater.directory.env, updater.directory.disk);
      gambled := AnyCall(updater, updates, downloads[i], all);
      if gambled {
        return;
      }
    }
  }

  lemma NeverRiskyIn(env: Environment, disk: InstallDisk)
    requires AtRest(env, disk)
    ensures env.ordered || env.steady ==> !Risky(env, disk)
  {
    if env.ordered || env.steady {
      NeverRisky(env, disk);
    }
  }

  method AnyCall(updater: Updater, updates: seq<VerifiedUpdate>, download: Option<Image>, ghost all: iset<Image>)
    returns (gambled: bool)
    requires updater.Safely(all) && updater.Resting()
    requires forall u | u in updates :: updater.Verified(u.digest) <= all
    modifies updater.directory, updates
    ensures !gambled ==> updater.Safely(all) && updater.Resting()
    ensures gambled ==> old(Risky(updater.directory.env, updater.directory.disk))
  {
    hide Inv, Risky;
    gambled := false;
    var k: int, approved: bool := *, *;
    if {
      case true =>
        var status;
        status, gambled := updater.Recover(all);
      case true =>
        ghost var before := updater.directory.disk;
        updater.directory.Stop();
        HaltKeepsInv(updater.directory.env, before, updater.directory.disk, all);
      case 0 <= k < |updates| =>
        var result;
        assert updater.Verified(updates[k].digest) <= all;
        assert all + updater.Verified(updates[k].digest) == all;
        result, gambled := updater.Apply(updates[k], approved, download, all);
    }
  }
}
