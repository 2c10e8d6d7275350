/** The watcher that switches profiles with the running games (internal/procwatch/procwatch.go). */
module Procwatch {
  import opened Text

  /** What runs: the names of executables and absolute, cleaned paths. */
  datatype Running = Running(names: set<string>, paths: seq<string>)

  /** A rule for a folder, or for an executable when it has no folder. `dirs` are the cleaned folder
      and what its symbolic links resolve to. */
  datatype Rule = Rule(executable: string, folder: string, profileID: string, dirs: seq<string>)

  /** The path is the directory or lies in it. */
  predicate Under(path: string, dir: string) {
    || path == dir
    || (if dir != "" && dir[|dir| - 1] == '/' then dir else dir + "/") <= path
  }

  predicate Matches(rule: Rule, running: Running) {
    if rule.folder != "" then
      exists i, j | 0 <= i < |rule.dirs| && 0 <= j < |running.paths| :: Under(running.paths[j], rule.dirs[i])
    else rule.executable != "" && rule.executable in running.names
  }

  /** The first rule that matches. */
  function Match(rules: seq<Rule>, running: Running): (rule: Option<Rule>)
    ensures rule.None? <==> forall r | r in rules :: !Matches(r, running)
    ensures rule.Some? ==> rule.value in rules && Matches(rule.value, running)
  {
    if rules == [] then None
    else if Matches(rules[0], running) then Some(rules[0])
    else Match(rules[1..], running)
  }

  /** A folder rule looks at the paths alone: one is a directory of the rule, or goes on after it with a
      slash. Any other rule looks at the names alone. */
  lemma MatchesIs(rule: Rule, running: Running)
    ensures rule.folder == "" ==>
              (Matches(rule, running) <==> rule.executable != "" && rule.executable in running.names)
    ensures rule.folder != "" ==>
              (Matches(rule, running) <==>
                exists dir, path | dir in rule.dirs && path in running.paths ::
                  && dir <= path
                  && (dir == path || path[|dir|] == '/' || (dir != "" && dir[|dir| - 1] == '/')))
  {
    forall dir, path | dir in rule.dirs && path in running.paths
      ensures Under(path, dir) <==>
                dir <= path && (dir == path || path[|dir|] == '/' || (dir != "" && dir[|dir| - 1] == '/'))
    {
      UnderIs(path, dir);
    }
    hide Under;
    if rule.folder != "" && !Matches(rule, running) {
      forall dir, path | dir in rule.dirs && path in running.paths ensures !Under(path, dir) {
        var i :| 0 <= i < |rule.dirs| && rule.dirs[i] == dir;
        var j :| 0 <= j < |running.paths| && running.paths[j] == path;
        assert !Under(running.paths[j], rule.dirs[i]);
      }
    } else if rule.folder != "" {
      var i, j :| 0 <= i < |rule.dirs| && 0 <= j < |running.paths| && Under(running.paths[j], rule.dirs[i]);
      assert rule.dirs[i] in rule.dirs && running.paths[j] in running.paths;
    }
  }

  lemma UnderIs(path: string, dir: string)
    ensures Under(path, dir) <==>
              dir <= path && (dir == path || path[|dir|] == '/' || (dir != "" && dir[|dir| - 1] == '/'))
  {
    if dir + "/" <= path {
      assert path[|dir|] == (dir + "/")[|dir|];
      assert dir == (dir + "/")[..|dir|] == path[..|dir|];
    }
    if dir <= path && dir != path && path[|dir|] == '/' {
      assert dir + "/" == path[..|dir| + 1];
    }
  }

  /** Of several rules that match the first one counts. */
  lemma {:induction false} FirstRuleCounts(rules: seq<Rule>, running: Running, i: nat)
    requires i < |rules| && Matches(rules[i], running)
    requires forall j | 0 <= j < i :: !Matches(rules[j], running)
    ensures Match(rules, running) == Some(rules[i])
  {
    if i > 0 {
      FirstRuleCounts(rules[1..], running, i - 1);
    }
  }

  // ------------------------------------------------------------------ folders

  predicate AreNames(parts: seq<string>) {
    forall i | 0 <= i < |parts| :: parts[i] != "" && '/' !in parts[i]
  }

  function Slashed(parts: seq<string>): string {
    if parts == [] then "" else "/" + parts[0] + Slashed(parts[1..])
  }

  /** The cleaned absolute path with these components. */
  function Path(parts: seq<string>): string {
    if parts == [] then "/" else Slashed(parts)
  }

  /** `s` goes on after the prefix with a slash or not at all. */
  predicate PrefixAtSlash(prefix: string, s: string) {
    prefix <= s && (|prefix| == |s| || s[|prefix|] == '/')
  }

  lemma FirstName(name: string, rest: string)
    requires '/' !in name && (rest == "" || rest[0] == '/')
    ensures Cut(name + rest, '/').0 == name
  {
    if rest == "" {
      CutAt(name, '/', "");
      assert name + rest == name;
    } else {
      CutAt(name, '/', rest[1..]);
      assert name + rest == name + ['/'] + rest[1..];
    }
  }

  lemma SameName(a: string, b: string, x: string, y: string)
    requires '/' !in a && '/' !in b && (x == "" || x[0] == '/') && (y == "" || y[0] == '/')
    requires PrefixAtSlash(a + x, b + y)
    ensures a == b && PrefixAtSlash(x, y)
  {
    var long := b + y;
    assert long == a + long[|a|..];
    assert x != "" ==> long[|a|] == (a + x)[|a|];
    FirstName(a, long[|a|..]);
    FirstName(b, y);
    assert forall i | 0 <= i < |x| :: x[i] == (a + x)[|a| + i] == long[|a| + i] == y[i];
  }

  lemma SlashedTail(parts: seq<string>)
    requires parts != []
    ensures Slashed(parts) == "/" + (parts[0] + Slashed(parts[1..]))
    ensures Slashed(parts[1..]) == "" || Slashed(parts[1..])[0] == '/'
  {
    assert "/" + (parts[0] + Slashed(parts[1..])) == "/" + parts[0] + Slashed(parts[1..]);
  }

  lemma PrefixShift(head: string, x: string, y: string)
    ensures PrefixAtSlash(head + x, head + y) <==> PrefixAtSlash(x, y)
  {
    if PrefixAtSlash(head + x, head + y) {
      assert forall i | 0 <= i < |x| :: x[i] == (head + x)[|head| + i] == (head + y)[|head| + i] == y[i];
    }
    if PrefixAtSlash(x, y) {
      assert head + y == (head + x) + y[|x|..];
    }
  }

  lemma {:induction false} SlashedPrefix(dir: seq<string>, path: seq<string>)
    requires AreNames(dir) && AreNames(path)
    ensures PrefixAtSlash(Slashed(dir), Slashed(path)) <==> dir <= path
  {
    hide Slashed, PrefixAtSlash;
    if dir == [] || path == [] {
      SlashedIsEmpty(dir, path);
    } else {
      var x, y := Slashed(dir[1..]), Slashed(path[1..]);
      SlashedPrefix(dir[1..], path[1..]);
      SlashedTail(dir);
      SlashedTail(path);
      PrefixShift("/", dir[0] + x, path[0] + y);
      if PrefixAtSlash(dir[0] + x, path[0] + y) {
        SameName(dir[0], path[0], x, y);
      }
      PrefixShift(dir[0], x, y);
      assert dir == [dir[0]] + dir[1..] && path == [path[0]] + path[1..];
      assert dir <= path <==> dir[0] == path[0] && dir[1..] <= path[1..];
    }
  }

  lemma SlashedIsEmpty(dir: seq<string>, path: seq<string>)
    requires dir == [] || path == []
    ensures PrefixAtSlash(Slashed(dir), Slashed(path)) <==> dir <= path
  {
    if dir == [] && path != [] {
      SlashedTail(path);
    } else if dir != [] {
      SlashedTail(dir);
    }
  }

  lemma SlashedEnd(parts: seq<string>)
    requires AreNames(parts) && parts != []
    ensures Slashed(parts) != "" && Slashed(parts)[0] == '/' && Slashed(parts)[|Slashed(parts)| - 1] != '/'
  {
    if |parts| > 1 {
      SlashedEnd(parts[1..]);
    } else {
      assert parts[1..] == [] && Slashed(parts) == "/" + parts[0];
      assert parts[0][|parts[0]| - 1] in parts[0];
    }
  }

  /** On cleaned absolute paths, matching a folder compares whole components. */
  lemma FolderMatchIsPrefix(dir: seq<string>, path: seq<string>)
    requires AreNames(dir) && AreNames(path)
    ensures Under(Path(path), Path(dir)) <==> dir <= path
  {
    SlashedPrefix(dir, path);
    if path != [] {
      SlashedEnd(path);
    }
    if dir != [] {
      SlashedEnd(dir);
      var d, p := Path(dir), Path(path);
      if PrefixAtSlash(d, p) {
        assert |d| == |p| ==> p == d;
        assert |d| < |p| ==> d + "/" == p[..|d| + 1];
      }
      if d + "/" <= p {
        assert p[|d|] == (d + "/")[|d|];
        assert d <= p by {
          assert d == (d + "/")[..|d|] == p[..|d|];
        }
      }
    }
  }

  // ------------------------------------------------------------------ a tick

  datatype Memory = Memory(active: bool, current: Rule, setID: string, previous: string)

  /** A switch may fail, and may report an error although it has moved the profile. */
  datatype Switching = Works | Refused | Hidden

  /** How the calls of one tick turn out: whether the active ID can be read, and what somebody else
      chooses after the watcher has read it for the first or the second time. */
  datatype Answers = Answers(
    first: bool, early: Option<string>, second: bool, late: Option<string>, switching: Switching)

  function ReadID(profile: string, readable: bool): string {
    if readable then profile else ""
  }

  function Chosen(profile: string, outside: Option<string>): string {
    if outside.Some? then outside.value else profile
  }

  function SwitchedTo(profile: string, id: string, switching: Switching): string {
    if switching.Refused? then profile else id
  }

  /** What a tick does to the watcher's memory and the active profile. */
  function Ticked(rules: seq<Rule>, m: Memory, profile: string, running: Running, a: Answers): (Memory, string) {
    if m.active && Matches(m.current, running) then (m, profile)
    else
      var rule := Match(rules, running);
      var ours := m.active && ReadID(profile, a.first) == m.setID;
      var now := if m.active then Chosen(profile, a.early) else profile;
      if ours && rule.Some? then
        (if a.switching.Works? then m.(current := rule.value, setID := rule.value.profileID) else m,
         SwitchedTo(now, rule.value.profileID, a.switching))
      else if ours && m.previous == "" then (m.(active := false), now)
      else if ours then
        (if a.switching.Works? then m.(active := false) else m, SwitchedTo(now, m.previous, a.switching))
      else if rule.None? then (m.(active := false), now)
      else
        (if a.switching.Works? then Memory(true, rule.value, rule.value.profileID, ReadID(now, a.second))
         else m.(active := false),
         SwitchedTo(Chosen(now, a.late), rule.value.profileID, a.switching))
  }

  class Switcher {
    var profile: string

    constructor (profile: string)
      ensures this.profile == profile
    {
      this.profile := profile;
    }

    /** Reads the active ID, after which somebody else may choose another one. */
    method ActiveID(readable: bool, outside: Option<string>) returns (id: string)
      modifies this
      ensures id == ReadID(old(profile), readable)
      ensures profile == Chosen(old(profile), outside)
    {
      id := if readable then profile else "";
      if outside.Some? {
        profile := outside.value;
      }
    }

    method Switch(id: string, switching: Switching) returns (ok: bool)
      modifies this
      ensures ok == switching.Works?
      ensures profile == SwitchedTo(old(profile), id, switching)
    {
      if !switching.Refused? {
        profile := id;
      }
      return switching.Works?;
    }
  }

  class Watcher {
    const sw: Switcher
    const rules: seq<Rule>
    var active: bool
    var current: Rule
    var setID: string
    var previous: string

    constructor (sw: Switcher, rules: seq<Rule>)
      ensures this.sw == sw && this.rules == rules && !active
    {
      this.sw, this.rules := sw, rules;
      active, current, setID, previous := false, Rule("", "", "", []), "", "";
    }

    ghost function State(): Memory
      reads this
    {
      Memory(active, current, setID, previous)
    }

    method FindMatch(running: Running) returns (rule: Option<Rule>)
      ensures rule == Match(rules, running)
    {
      for i := 0 to |rules|
        invariant Match(rules, running) == Match(rules[i..], running)
      {
        assert rules[i..][1..] == rules[i + 1..];
        if Matches(rules[i], running) {
          return Some(rules[i]);
        }
      }
      return None;
    }

    method Tick(running: Running, a: Answers) returns (ok: bool)
      modifies this, sw
      ensures (State(), sw.profile) == Ticked(rules, old(State()), old(sw.profile), running, a)
      ensures !ok ==> !a.switching.Works?
    {
      if active {
        if Matches(current, running) {
          return true;
        }
        var id := sw.ActiveID(a.first, a.early);
        var found := FindMatch(running);
        if id != setID {
          active := false;
        } else if found.Some? {
          ok := sw.Switch(found.value.profileID, a.switching);
          if ok {
            current, setID := found.value, found.value.profileID;
          }
          return;
        } else {
          if previous != "" {
            ok := sw.Switch(previous, a.switching);
            if !ok {
              return;
            }
          }
          active := false;
          return true;
        }
      }
      var found := FindMatch(running);
      if found.None? {
        return true;
      }
      var prev := sw.ActiveID(a.second, a.late);
      ok := sw.Switch(found.value.profileID, a.switching);
      if ok {
        active, current, setID, previous := true, found.value, found.value.profileID, prev;
      }
    }
  }

  // ------------------------------------------------------------------ what a tick means

  /** Why a tick may change the profile: somebody else chose one, or a game that was not followed yet is
      running, or the last game has ended and the profile was the one the watcher chose when it looked. */
  lemma TickEffect(rules: seq<Rule>, m: Memory, profile: string, running: Running, a: Answers)
    ensures var (m', profile') := Ticked(rules, m, profile, running, a);
            && (profile' != profile && Some(profile') != a.early && Some(profile') != a.late ==>
                  || (Match(rules, running).Some? && profile' == Match(rules, running).value.profileID)
                  || (m.active && Match(rules, running).None? && profile' == m.previous != ""
                      && ReadID(profile, a.first) == m.setID))
            && (m.active && Matches(m.current, running) ==> m' == m && profile' == profile)
            && (m'.active && (m.active ==> m' != m) ==>
                  Some(m'.current) == Match(rules, running) && profile' == m'.setID == m'.current.profileID)
  {
  }

  /** After the last game a choice that somebody makes after the watcher has looked is kept exactly if
      there is nothing to restore, or restoring it fails outright. */
  lemma LateChoiceIsKeptIff(rules: seq<Rule>, m: Memory, profile: string, running: Running, a: Answers)
    requires m.active && !Matches(m.current, running) && Match(rules, running).None? && a.early.Some?
    ensures var (m', profile') := Ticked(rules, m, profile, running, a);
            profile' == a.early.value <==>
              || ReadID(profile, a.first) != m.setID || m.previous in {"", a.early.value} || a.switching.Refused?
  {
  }

  /** When every call works, the watcher follows a game after the tick exactly when a rule matches, and
      the rule it follows matches. */
  lemma TickFollowsGames(rules: seq<Rule>, m: Memory, profile: string, running: Running, a: Answers)
    requires a.switching.Works? && (m.active ==> m.current in rules)
    ensures var (m', _) := Ticked(rules, m, profile, running, a);
            && (m'.active <==> Match(rules, running).Some?)
            && (m'.active ==> m'.current in rules && Matches(m'.current, running))
  {
  }

  /** Every call of the tick reads the active ID, and nobody chooses another profile. */
  predicate Quiet(a: Answers) {
    a.first && a.second && a.early.None? && a.late.None?
  }

  /** A switch that fails is tried again: the next tick on which it works comes to what the first one
      would have come to. Until then the profile stays; the game that was followed is still followed if
      the profile is the one the watcher chose, and none is followed otherwise. */
  lemma FailureIsRetried(rules: seq<Rule>, m: Memory, profile: string, running: Running, a: Answers, b: Answers)
    requires Quiet(a) && Quiet(b) && a.switching.Refused? && b.switching.Works?
    ensures var (m', profile') := Ticked(rules, m, profile, running, a);
            && Ticked(rules, m', profile', running, b) == Ticked(rules, m, profile, running, b)
            && profile' == profile
            && (m.active && profile == m.setID && (m.previous != "" || Match(rules, running).Some?) ==> m' == m)
            && (m.active && profile != m.setID && !Matches(m.current, running) ==> m' == m.(active := false))
  {
  }

  /** A profile that cannot be read counts as somebody else's, and cannot be restored later. */
  lemma UnreadableIsGivenUp(rules: seq<Rule>, m: Memory, profile: string, running: Running, a: Answers)
    ensures m.active && !Matches(m.current, running) && !a.first && m.setID != "" && Match(rules, running).None? ==>
              Ticked(rules, m, profile, running, a)
                == (m.(active := false), if a.early.Some? then a.early.value else profile)
    ensures !m.active && Match(rules, running).Some? && !a.second && a.switching.Works? ==>
              Ticked(rules, m, profile, running, a).0.previous == ""
  {
  }

  // ------------------------------------------------------------------ runs

  datatype Event = Tick(running: Running, answers: Answers) | Outside(id: string)

  function Step(rules: seq<Rule>, s: (Memory, string), e: Event): (Memory, string) {
    match e
    case Tick(running, a) => Ticked(rules, s.0, s.1, running, a)
    case Outside(id) => (s.0, id)
  }

  function Run(rules: seq<Rule>, s: (Memory, string), events: seq<Event>): (Memory, string) {
    if events == [] then s
    else Step(rules, Run(rules, s, events[..|events| - 1]), events[|events| - 1])
  }

  /** Nobody else switches and the active ID can always be read. Switches may fail, but then they have
      not moved the profile. */
  ghost predicate Undisturbed(events: seq<Event>) {
    forall i | 0 <= i < |events| ::
      && events[i].Tick?
      && var a := events[i].answers; a.first && a.second && a.early.None? && a.late.None? && !a.switching.Hidden?
  }

  /** While it follows a game the profile is the rule's, otherwise it is the one from before. */
  predicate InCharge(rules: seq<Rule>, s: (Memory, string), before: string) {
    if s.0.active then
      s.0.current in rules && s.1 == s.0.setID == s.0.current.profileID && s.0.previous == before
    else s.1 == before
  }

  lemma {:induction false} WatcherIsInCharge(rules: seq<Rule>, s: (Memory, string), before: string, events: seq<Event>)
    requires InCharge(rules, s, before) && before != "" && Undisturbed(events)
    ensures InCharge(rules, Run(rules, s, events), before)
  {
    if events != [] {
      WatcherIsInCharge(rules, s, before, events[..|events| - 1]);
    }
  }

  /** No game with a rule is running, and nobody chooses another profile. */
  ghost predicate NoGame(rules: seq<Rule>, events: seq<Event>) {
    forall i | 0 <= i < |events| ::
      && events[i].Tick? && Match(rules, events[i].running).None?
      && events[i].answers.early.None? && events[i].answers.late.None?
  }

  /** A profile that somebody else has chosen stays until a rule matches, however the calls turn out;
      in particular the previous one is not restored. */
  lemma {:induction false} OutsideChoiceStays(rules: seq<Rule>, s: (Memory, string), events: seq<Event>)
    requires s.0.active ==> s.1 != s.0.setID && s.0.setID != ""
    requires NoGame(rules, events)
    ensures var r := Run(rules, s, events);
            r.1 == s.1 && (r.0.active ==> s.0.active && r.0.setID == s.0.setID)
  {
    if events != [] {
      OutsideChoiceStays(rules, s, events[..|events| - 1]);
    }
  }

  /** And if it is the one the watcher chose, the first tick on which every call works restores the
      profile from before. */
  lemma PreviousIsRestored(rules: seq<Rule>, s: (Memory, string), before: string, running: Running, a: Answers)
    requires InCharge(rules, s, before) && before != "" && s.0.active
    requires Match(rules, running).None? && a.first && a.switching.Works?
    ensures var (m', profile') := Ticked(rules, s.0, s.1, running, a); !m'.active && profile' == before
  {
  }
}
