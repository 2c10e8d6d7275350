/** A directory whose entries change in memory at once and on the disk only when it is synced.

    Every system call may fail without effect, and may also find that the machine lost power or
    that the process was killed, just before or just after it. What a loss of power keeps of the
    operations issued since the last successful sync depends on the disk, and whether syncs may
    fail and the process may be killed while the machine stays up on the circumstances.
*/
module DurableDirectory {

  /** The contents of one inode. Until the file is synced, a power loss may replace them. */
  datatype File<Data> = File(data: Data, synced: bool)

  /** A change of the directory's entries. */
  datatype Op<Name> =
    | Link(name: Name, inode: nat)
    | Unlink(name: Name)
    | Rename(source: Name, target: Name)

  type Entries<Name> = map<Name, nat>

  function Perform<Name>(entries: Entries<Name>, op: Op<Name>): Entries<Name> {
    match op
    case Link(name, inode) => entries[name := inode]
    case Unlink(name) => entries - {name}
    case Rename(source, target) =>
      if source in entries then (entries - {source})[target := entries[source]] else entries
  }

  function Replay<Name>(entries: Entries<Name>, log: seq<Op<Name>>): Entries<Name> {
    if log == [] then entries
    else Perform(Replay(entries, log[..|log| - 1]), log[|log| - 1])
  }

  /** `kept` is `log` with any of its operations left out. */
  ghost predicate Subsequence<T>(kept: seq<T>, log: seq<T>) {
    if log == [] then kept == []
    else
      || Subsequence(kept, log[..|log| - 1])
      || (kept != [] && kept[|kept| - 1] == log[|log| - 1]
          && Subsequence(kept[..|kept| - 1], log[..|log| - 1]))
  }

  /** An ordered disk keeps any prefix of the unsynced operations, another one any of them. Under
      steady circumstances every sync succeeds and only a loss of power stops the program. */
  datatype Environment = Environment(ordered: bool, steady: bool)

  /** The operations of `log` that a power loss may leave on the disk. */
  ghost predicate Survives<Name>(env: Environment, kept: seq<Op<Name>>, log: seq<Op<Name>>) {
    if env.ordered then kept <= log else Subsequence(kept, log)
  }

  /** `durable` are the entries as of the last successful sync, `log` the operations since. */
  datatype Disk<Name, Data> = Disk(durable: Entries<Name>, log: seq<Op<Name>>, files: map<nat, File<Data>>) {
    function Live(): Entries<Name> {
      Replay(durable, log)
    }

    function Issue(op: Op<Name>): Disk<Name, Data> {
      this.(log := log + [op])
    }

    /** Unlinking a name that is not there changes nothing. */
    function Removed(name: Name): Disk<Name, Data> {
      if name in Live() then Issue(Op.Unlink(name)) else this
    }

    function Moved(source: Name, target: Name): Disk<Name, Data> {
      if source in Live() then Issue(Op.Rename(source, target)) else this
    }

    function Linked(name: Name, inode: nat, empty: Data): Disk<Name, Data> {
      Issue(Link(name, inode)).(files := files[inode := File(empty, false)])
    }

    function Synced(): Disk<Name, Data> {
      Disk(Live(), [], files)
    }
  }

  /** Synced files keep their contents; the others keep only their place. */
  ghost predicate Scrambled<Data>(files: map<nat, File<Data>>, after: map<nat, File<Data>>) {
    && after.Keys == files.Keys
    && forall i | i in files && files[i].synced :: after[i] == files[i]
  }

  ghost predicate PowerLoss<Name(!new), Data>(env: Environment, before: Disk<Name, Data>, after: Disk<Name, Data>) {
    && after.log == []
    && Scrambled(before.files, after.files)
    && exists kept | Survives(env, kept, before.log) :: after.durable == Replay(before.durable, kept)
  }

  /** What is found after the program stopped: a power loss, or a kill, which loses nothing. */
  ghost predicate Halts<Name(!new), Data>(env: Environment, before: Disk<Name, Data>, after: Disk<Name, Data>) {
    (!env.steady && after == before) || PowerLoss(env, before, after)
  }

  datatype Status = OK | NotFound | Failed | Stopped

  /** How a system call that meant to turn `before` into `intended` may end. */
  ghost predicate Ends<Name(!new), Data>(
    env: Environment, before: Disk<Name, Data>, intended: Disk<Name, Data>, after: Disk<Name, Data>, status: Status)
  {
    match status
    case OK => after == intended
    case NotFound => after == before
    case Failed => after == before
    case Stopped => Halts(env, before, after) || Halts(env, intended, after)
  }

  lemma ReplayIssue<Name>(entries: Entries<Name>, log: seq<Op<Name>>, op: Op<Name>)
    ensures Replay(entries, log + [op]) == Perform(Replay(entries, log), op)
  {
    assert (log + [op])[..|log|] == log;
  }

  /** What survives of a longer log is what survives of the shorter one, perhaps with the new operation. */
  lemma SurvivesIssue<Name>(env: Environment, kept: seq<Op<Name>>, log: seq<Op<Name>>, op: Op<Name>)
    requires Survives(env, kept, log + [op])
    ensures
      || Survives(env, kept, log)
      || (kept != [] && kept == kept[..|kept| - 1] + [op]
          && Survives(env, kept[..|kept| - 1], log)
          && (env.ordered ==> kept[..|kept| - 1] == log))
  {
    assert (log + [op])[..|log|] == log;
    if env.ordered && kept == log + [op] {
      assert kept[..|kept| - 1] == log;
    } else if env.ordered {
      assert kept == (log + [op])[..|kept|] == log[..|kept|];
    } else if !Subsequence(kept, log) {
      assert kept == kept[..|kept| - 1] + [op];
    }
  }

  /** And the new operation may indeed be lost, or survive with whatever survives of the others, or with
      all of them. */
  lemma IssueSurvives<Name>(env: Environment, kept: seq<Op<Name>>, log: seq<Op<Name>>, op: Op<Name>)
    requires Survives(env, kept, log)
    ensures Survives(env, kept, log + [op])
    ensures (env.ordered ==> kept == log) ==> Survives(env, kept + [op], log + [op])
  {
    assert (log + [op])[..|log|] == log && (kept + [op])[..|kept|] == kept;
  }

  lemma {:induction false} AllSurvive<Name>(env: Environment, log: seq<Op<Name>>)
    ensures Survives(env, log, log)
  {
    if !env.ordered && log != [] {
      AllSurvive(env, log[..|log| - 1]);
    }
  }

  lemma PrefixSurvives<Name>(env: Environment, log: seq<Op<Name>>, i: nat)
    requires env.ordered && i <= |log|
    ensures Survives(env, log[..i], log)
  {
  }

  lemma NothingUnsynced<Name>(env: Environment, kept: seq<Op<Name>>)
    ensures Survives(env, kept, []) <==> kept == []
  {
  }

  /** The entries that the next operation may find on the disk when it gets there: those of the moment on
      an ordered disk, any that may survive on another one. */
  function Bases<Name>(env: Environment, durable: Entries<Name>, log: seq<Op<Name>>): (bases: set<Entries<Name>>)
  {
    if env.ordered then {Replay(durable, log)}
    else if log == [] then {durable}
    else
      var front := Bases(env, durable, log[..|log| - 1]);
      front + set e | e in front :: Perform(e, log[|log| - 1])
  }

  lemma {:induction false} SurvivorIsBase<Name>(
    env: Environment, durable: Entries<Name>, kept: seq<Op<Name>>, log: seq<Op<Name>>)
    requires Survives(env, kept, log) && (env.ordered ==> kept == log)
    ensures Replay(durable, kept) in Bases(env, durable, log)
  {
    if !env.ordered && log != [] {
      if Subsequence(kept, log[..|log| - 1]) {
        SurvivorIsBase(env, durable, kept, log[..|log| - 1]);
      } else {
        SurvivorIsBase(env, durable, kept[..|kept| - 1], log[..|log| - 1]);
      }
    }
  }

  lemma {:induction false} BaseSurvives<Name>(
    env: Environment, durable: Entries<Name>, log: seq<Op<Name>>, e: Entries<Name>)
    returns (kept: seq<Op<Name>>)
    requires e in Bases(env, durable, log)
    ensures Survives(env, kept, log) && (env.ordered ==> kept == log) && Replay(durable, kept) == e
  {
    kept := [];
    if env.ordered {
      kept := log;
    } else if log != [] {
      var front, last := log[..|log| - 1], log[|log| - 1];
      if e in Bases(env, durable, front) {
        kept := BaseSurvives(env, durable, front, e);
      } else {
        var base :| base in Bases(env, durable, front) && e == Perform(base, last);
        kept := BaseSurvives(env, durable, front, base);
        ReplayIssue(durable, kept, last);
        assert (kept + [last])[..|kept|] == kept;
        kept := kept + [last];
      }
    }
  }

  /** All the entries that a loss of power may leave. */
  function Remains<Name>(env: Environment, durable: Entries<Name>, log: seq<Op<Name>>): (remains: set<Entries<Name>>) {
    if log == [] then {durable}
    else
      var front := log[..|log| - 1];
      Remains(env, durable, front) + set e | e in Bases(env, durable, front) :: Perform(e, log[|log| - 1])
  }

  lemma RemainsIssue<Name>(env: Environment, durable: Entries<Name>, log: seq<Op<Name>>, op: Op<Name>)
    ensures Remains(env, durable, log + [op])
         == Remains(env, durable, log) + set e | e in Bases(env, durable, log) :: Perform(e, op)
    ensures Bases(env, durable, log + [op])
         == (if env.ordered then {Perform(Replay(durable, log), op)}
             else Bases(env, durable, log) + set e | e in Bases(env, durable, log) :: Perform(e, op))
  {
    assert (log + [op])[..|log|] == log;
    ReplayIssue(durable, log, op);
  }

  lemma {:induction false} BasesRemain<Name>(env: Environment, durable: Entries<Name>, log: seq<Op<Name>>)
    ensures Bases(env, durable, log) <= Remains(env, durable, log)
    ensures Replay(durable, log) in Bases(env, durable, log)
    ensures !env.ordered ==> Bases(env, durable, log) == Remains(env, durable, log)
  {
    if log != [] {
      BasesRemain(env, durable, log[..|log| - 1]);
    }
  }

  lemma {:induction false} SurvivorRemains<Name>(
    env: Environment, durable: Entries<Name>, kept: seq<Op<Name>>, log: seq<Op<Name>>)
    requires Survives(env, kept, log)
    ensures Replay(durable, kept) in Remains(env, durable, log)
  {
    if log == [] {
      NothingUnsynced(env, kept);
    } else {
      var front := log[..|log| - 1];
      assert log == front + [log[|log| - 1]];
      SurvivesIssue(env, kept, front, log[|log| - 1]);
      if Survives(env, kept, front) {
        SurvivorRemains(env, durable, kept, front);
      } else {
        SurvivorIsBase(env, durable, kept[..|kept| - 1], front);
      }
    }
  }

  lemma RemainsAfterOne<Name>(env: Environment, durable: Entries<Name>, op: Op<Name>)
    ensures Remains(env, durable, [op]) == {durable, Perform(durable, op)}
    ensures Bases(env, durable, []) == {durable} && Replay(durable, [op]) == Perform(durable, op)
  {
    assert [op][..0] == [];
    assert Bases(env, durable, []) == {durable};
  }

  /** The system calls of a program on the directory. */
  datatype SystemCall<Name, Data> =
    | CallExists(name: Name)
    | CallUnlink(name: Name)
    | CallRename(source: Name, target: Name)
    | CallCreate(name: Name, inode: nat)
    | CallWrite(inode: nat, data: Data)
    | CallSyncFile(inode: nat)
    | CallSync
    | CallOther

  /** What a call is meant to do. A new file holds `empty`. */
  function Intended<Name, Data>(disk: Disk<Name, Data>, call: SystemCall<Name, Data>, empty: Data): Disk<Name, Data> {
    match call
    case CallUnlink(name) => disk.Removed(name)
    case CallRename(source, target) => disk.Moved(source, target)
    case CallCreate(name, inode) => disk.Linked(name, inode, empty)
    case CallWrite(inode, data) => disk.(files := disk.files[inode := File(data, false)])
    case CallSyncFile(inode) =>
      if inode in disk.files then disk.(files := disk.files[inode := disk.files[inode].(synced := true)]) else disk
    case CallSync => disk.Synced()
    case _ => disk
  }

  datatype Called<Name, Data> = Called(call: SystemCall<Name, Data>, status: Status)

  /** The disks a program may see when it makes these calls and they end like this. */
  ghost predicate Trace<Name(!new), Data>(
    env: Environment, disks: seq<Disk<Name, Data>>, calls: seq<Called<Name, Data>>, empty: Data)
  {
    && |disks| == |calls| + 1
    && forall i {:trigger calls[i]} | 0 <= i < |calls| ::
         Ends(env, disks[i], Intended(disks[i], calls[i].call, empty), disks[i + 1], calls[i].status)
  }

  /** One more call of a trace. */
  lemma TraceStep<Name(!new), Data>(
    env: Environment, disks: seq<Disk<Name, Data>>, calls: seq<Called<Name, Data>>, empty: Data,
    called: Called<Name, Data>, next: Disk<Name, Data>)
    returns (moreDisks: seq<Disk<Name, Data>>, moreCalls: seq<Called<Name, Data>>)
    requires Trace(env, disks, calls, empty)
    requires Ends(env, disks[|calls|], Intended(disks[|calls|], called.call, empty), next, called.status)
    ensures moreDisks == disks + [next] && moreCalls == calls + [called]
    ensures Trace(env, moreDisks, moreCalls, empty) && |moreDisks| == |moreCalls| + 1
  {
    hide Ends, Intended;
    moreDisks, moreCalls := disks + [next], calls + [called];
    forall i {:trigger moreCalls[i]} | 0 <= i < |moreCalls|
      ensures Ends(env, moreDisks[i], Intended(moreDisks[i], moreCalls[i].call, empty),
                   moreDisks[i + 1], moreCalls[i].status)
    {
      assert i < |calls| ==> moreCalls[i] == calls[i] && moreDisks[i] == disks[i] && moreDisks[i + 1] == disks[i + 1];
    }
  }

  /** The directory as the program sees it. `calls` are the system calls made on it so far. */
  class Directory<Name(==,!new), Data(0)> {
    const env: Environment
    var disk: Disk<Name, Data>
    ghost var calls: seq<Called<Name, Data>>

    constructor (env: Environment, disk: Disk<Name, Data>)
      ensures this.env == env && this.disk == disk && calls == []
    {
      this.env, this.disk, calls := env, disk, [];
    }

    /** Drops operations from the end of an ordered disk, from anywhere on another one. */
    method Lose() returns (kept: seq<Op<Name>>)
      ensures Survives(env, kept, disk.log)
    {
      hide Survives;
      kept := [];
      AllSurvive<Name>(env, []);
      for i := 0 to |disk.log|
        invariant Survives(env, kept, disk.log[..i])
        invariant env.ordered ==> kept == disk.log[..i]
      {
        IssueSurvives(env, kept, disk.log[..i], disk.log[i]);
        assert disk.log[..i + 1] == disk.log[..i] + [disk.log[i]];
        if * {
          kept := kept + [disk.log[i]];
        } else if env.ordered {
          PrefixSurvives(env, disk.log, i);
          return;
        }
      }
      assert disk.log[..|disk.log|] == disk.log;
    }

    method Stop()
      modifies this`disk
      ensures Halts(env, old(disk), disk)
    {
      if * {
        if !env.steady {
          return;
        }
      }
      var kept := Lose();
      var junk: map<nat, Data> := *;
      var after := map i | i in disk.files ::
        if disk.files[i].synced || i !in junk then disk.files[i] else File(junk[i], false);
      disk := Disk(Replay(disk.durable, kept), [], after);
    }

    /** Every system call goes through here. */
    method Call(intended: Disk<Name, Data>) returns (status: Status)
      modifies this`disk
      ensures Ends(env, old(disk), intended, disk, status) && status != NotFound
    {
      if * {
        Stop();
        return Stopped;
      } else if * {
        return Failed;
      }
      disk := intended;
      if * {
        Stop();
        return Stopped;
      }
      return OK;
    }

    method Exists(name: Name) returns (found: bool, status: Status)
      modifies this
      ensures Ends(env, old(disk), old(disk), disk, status) && status != NotFound
      ensures status == OK ==> found == (name in disk.Live())
      ensures calls == old(calls) + [Called(CallExists(name), status)]
    {
      status := Call(disk);
      found := name in disk.Live();
      calls := calls + [Called(CallExists(name), status)];
    }

    method Unlink(name: Name) returns (status: Status)
      modifies this
      ensures Ends(env, old(disk), old(disk).Removed(name), disk, status)
      ensures status == NotFound || status == OK ==> (name in old(disk.Live()) <==> status == OK)
      ensures calls == old(calls) + [Called(CallUnlink(name), status)]
    {
      var found := name in disk.Live();
      status := Call(disk.Removed(name));
      if status == OK && !found {
        status := NotFound;
      }
      calls := calls + [Called(CallUnlink(name), status)];
    }

    method Rename(source: Name, target: Name) returns (status: Status)
      modifies this
      ensures Ends(env, old(disk), old(disk).Moved(source, target), disk, status)
      ensures status == NotFound || status == OK ==> (source in old(disk.Live()) <==> status == OK)
      ensures calls == old(calls) + [Called(CallRename(source, target), status)]
    {
      var found := source in disk.Live();
      status := Call(disk.Moved(source, target));
      if status == OK && !found {
        status := NotFound;
      }
      calls := calls + [Called(CallRename(source, target), status)];
    }

    /** Creates a new file exclusively: it fails when the name is taken or no inode is free. */
    method Create(name: Name, empty: Data) returns (inode: nat, status: Status)
      modifies this
      ensures status == OK || status == Stopped ==>
                && inode !in old(disk.files)
                && Ends(env, old(disk), old(disk).Linked(name, inode, empty), disk, status)
      ensures status == OK ==> name !in old(disk.Live())
      ensures status == Failed || status == NotFound ==> disk == old(disk)
      ensures calls == old(calls) + [Called(CallCreate(name, inode), status)]
    {
      inode := *;
      if name in disk.Live() || inode in disk.files {
        status := Failed;
      } else {
        status := Call(disk.Linked(name, inode, empty));
      }
      calls := calls + [Called(CallCreate(name, inode), status)];
    }

    method Write(inode: nat, data: Data) returns (status: Status)
      modifies this
      ensures Ends(env, old(disk), old(disk.(files := disk.files[inode := File(data, false)])), disk, status)
      ensures calls == old(calls) + [Called(CallWrite(inode, data), status)]
    {
      status := Call(disk.(files := disk.files[inode := File(data, false)]));
      calls := calls + [Called(CallWrite(inode, data), status)];
    }

    method SyncFile(inode: nat) returns (status: Status)
      requires inode in disk.files
      modifies this
      ensures Ends(env, old(disk),
                   old(disk.(files := disk.files[inode := disk.files[inode].(synced := true)])), disk, status)
      ensures calls == old(calls) + [Called(CallSyncFile(inode), status)]
    {
      status := Call(disk.(files := disk.files[inode := disk.files[inode].(synced := true)]));
      calls := calls + [Called(CallSyncFile(inode), status)];
    }

    /** Under steady circumstances a sync never fails. */
    method Sync() returns (status: Status)
      modifies this
      ensures Ends(env, old(disk), old(disk.Synced()), disk, status)
      ensures status != NotFound
      ensures env.steady ==> status != Failed
      ensures calls == old(calls) + [Called(CallSync, status)]
    {
      status := Call(disk.Synced());
      if env.steady && status == Failed {
        disk := disk.Synced();
        status := OK;
      }
      calls := calls + [Called(CallSync, status)];
    }

    /** A call that touches neither the directory nor the contents of a file, such as closing one. */
    method Other() returns (status: Status)
      modifies this
      ensures Ends(env, old(disk), old(disk), disk, status) && status != NotFound
      ensures calls == old(calls) + [Called(CallOther, status)]
    {
      status := Call(disk);
      calls := calls + [Called(CallOther, status)];
    }
  }
}
