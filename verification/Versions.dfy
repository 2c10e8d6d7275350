/** Semantic versions: the grammar, its printer, the precedence of section 11 of SemVer 2.0.0 and
    the choice of an update (internal/update/contract.go, internal/update/updater.go). */
module Versions {
  import opened Text

  datatype Version = Version(major: nat, minor: nat, patch: nat, pre: seq<string>, build: seq<string>)

  const UINT64_LIMIT := 0x1_0000_0000_0000_0000

  predicate IsIdentifierChar(c: char) {
    IsDigit(c) || 'a' <= c <= 'z' || 'A' <= c <= 'Z' || c == '-'
  }

  predicate ValidIdentifier(s: string) {
    s != "" && forall i | 0 <= i < |s| :: IsIdentifierChar(s[i])
  }

  predicate ValidPre(s: string) {
    ValidIdentifier(s) && (IsDigits(s) ==> IsNumeral(s))
  }

  /** The versions the grammar can write down. */
  predicate WellFormed(v: Version) {
    && v.major < UINT64_LIMIT && v.minor < UINT64_LIMIT && v.patch < UINT64_LIMIT
    && (forall i | 0 <= i < |v.pre| :: ValidPre(v.pre[i]))
    && (forall i | 0 <= i < |v.build| :: ValidIdentifier(v.build[i]))
  }

  function Core(v: Version): string {
    Numeral(v.major) + "." + Numeral(v.minor) + "." + Numeral(v.patch)
  }

  function Print(v: Version): string {
    Core(v)
    + (if v.pre != [] then "-" + Join(v.pre, '.') else "")
    + (if v.build != [] then "+" + Join(v.build, '.') else "")
  }

  // ------------------------------------------------------------------ parsing

  predicate ValidComponent(s: string) {
    IsNumeral(s) && Value(s) < UINT64_LIMIT
  }

  function ParseIdentifiers(s: Option<string>, valid: string -> bool): Option<seq<string>> {
    match s
    case None => Some([])
    case Some(text) =>
      var parts := Split(text, '.');
      if forall i | 0 <= i < |parts| :: valid(parts[i]) then Some(parts) else None
  }

  function Unprefixed(raw: string): string {
    if raw != "" && raw[0] == 'v' then raw[1..] else raw
  }

  function Parse(raw: string): Option<Version> {
    var byBuild := Split(Unprefixed(raw), '+');
    if |byBuild| > 2 then None
    else
      var (coreText, preText) := Cut(byBuild[0], '-');
      var core := Split(coreText, '.');
      var pre := ParseIdentifiers(preText, ValidPre);
      var build := ParseIdentifiers(if |byBuild| == 2 then Some(byBuild[1]) else None, ValidIdentifier);
      if |core| == 3 && pre.Some? && build.Some?
         && ValidComponent(core[0]) && ValidComponent(core[1]) && ValidComponent(core[2])
      then Some(Version(Value(core[0]), Value(core[1]), Value(core[2]), pre.value, build.value))
      else None
  }

  lemma NumeralAvoids(n: nat)
    ensures forall c | !IsDigit(c) :: c !in Numeral(n)
  {
  }

  lemma CoreParts(v: Version)
    ensures Split(Core(v), '.') == [Numeral(v.major), Numeral(v.minor), Numeral(v.patch)]
    ensures '-' !in Core(v) && '+' !in Core(v) && Core(v)[0] != 'v'
  {
    NumeralAvoids(v.major);
    NumeralAvoids(v.minor);
    NumeralAvoids(v.patch);
    var parts := [Numeral(v.major), Numeral(v.minor), Numeral(v.patch)];
    assert Join(parts[1..][1..], '.') == Numeral(v.patch);
    assert Join(parts[1..], '.') == Numeral(v.minor) + "." + Numeral(v.patch);
    assert Core(v) == Join(parts, '.');
    SplitJoin(parts, '.');
  }

  lemma IdentifiersAvoid(parts: seq<string>)
    requires forall i | 0 <= i < |parts| :: ValidIdentifier(parts[i])
    ensures Separable(parts, '.') && '+' !in Join(parts, '.')
  {
    JoinAvoids(parts, '.', '+');
  }

  function Head(v: Version): string {
    Core(v) + (if v.pre != [] then "-" + Join(v.pre, '.') else "")
  }

  lemma PrintSplits(v: Version)
    requires WellFormed(v)
    ensures Split(Print(v), '+') == if v.build != [] then [Head(v), Join(v.build, '.')] else [Head(v)]
  {
    CoreParts(v);
    IdentifiersAvoid(v.pre);
    IdentifiersAvoid(v.build);
    assert '+' !in Head(v);
    if v.build != [] {
      assert Print(v) == Head(v) + ['+'] + Join(v.build, '.');
      SplitPrefix(Head(v), '+', Join(v.build, '.'));
      SplitWhole(Join(v.build, '.'), '+');
    } else {
      assert Print(v) == Head(v);
      SplitWhole(Head(v), '+');
    }
  }

  lemma HeadCuts(v: Version)
    requires WellFormed(v)
    ensures Cut(Head(v), '-') == (Core(v), if v.pre != [] then Some(Join(v.pre, '.')) else None)
  {
    CoreParts(v);
    CutAt(Core(v), '-', Join(v.pre, '.'));
    if v.pre != [] {
      assert Head(v) == Core(v) + ['-'] + Join(v.pre, '.');
    } else {
      assert Head(v) == Core(v);
    }
  }

  lemma IdentifiersParse(parts: seq<string>, valid: string -> bool)
    requires forall i | 0 <= i < |parts| :: ValidIdentifier(parts[i]) && valid(parts[i])
    ensures ParseIdentifiers(if parts != [] then Some(Join(parts, '.')) else None, valid) == Some(parts)
  {
    IdentifiersAvoid(parts);
    if parts != [] {
      SplitJoin(parts, '.');
    }
  }

  /** Everything that can be printed is read back as it was, with or without a leading v. */
  lemma ParsePrint(v: Version)
    requires WellFormed(v)
    ensures Parse(Print(v)) == Some(v) && Parse("v" + Print(v)) == Some(v)
  {
    hide Split, Cut, Join, Value, Numeral;
    CoreParts(v);
    ValueNumeral(v.major);
    ValueNumeral(v.minor);
    ValueNumeral(v.patch);
    PrintSplits(v);
    HeadCuts(v);
    IdentifiersParse(v.pre, ValidPre);
    IdentifiersParse(v.build, ValidIdentifier);
    assert Print(v)[0] == Core(v)[0];
    assert Unprefixed(Print(v)) == Print(v);
    assert Unprefixed("v" + Print(v)) == Print(v);
  }

  lemma IdentifiersJoin(s: Option<string>, valid: string -> bool)
    requires ParseIdentifiers(s, valid).Some?
    ensures var parts := ParseIdentifiers(s, valid).value;
            && (s.Some? <==> parts != [])
            && (s.Some? ==> Join(parts, '.') == s.value)
            && forall i | 0 <= i < |parts| :: valid(parts[i])
  {
    if s.Some? {
      JoinSplit(s.value, '.');
    }
  }

  lemma JoinThree(parts: seq<string>)
    requires |parts| == 3
    ensures Join(parts, '.') == parts[0] + "." + parts[1] + "." + parts[2]
  {
    assert parts[1..] == [parts[1], parts[2]] && parts[1..][1..] == [parts[2]];
    assert Join(parts[1..], '.') == parts[1] + ['.'] + parts[2];
  }

  lemma JoinAtMostTwo(parts: seq<string>)
    requires 1 <= |parts| <= 2
    ensures Join(parts, '+') == parts[0] + (if |parts| == 2 then "+" + parts[1] else "")
  {
    if |parts| == 2 {
      assert parts[1..] == [parts[1]];
    }
  }

  /** Only printed versions are read: the reader accepts nothing else. */
  lemma PrintParse(raw: string)
    requires Parse(raw).Some?
    ensures WellFormed(Parse(raw).value) && Print(Parse(raw).value) == Unprefixed(raw)
  {
    var byBuild := Split(Unprefixed(raw), '+');
    var (coreText, preText) := Cut(byBuild[0], '-');
    var core := Split(coreText, '.');
    JoinSplit(Unprefixed(raw), '+');
    JoinAtMostTwo(byBuild);
    CutJoins(byBuild[0], '-');
    JoinSplit(coreText, '.');
    JoinThree(core);
    NumeralValue(core[0]);
    NumeralValue(core[1]);
    NumeralValue(core[2]);
    IdentifiersJoin(preText, ValidPre);
    IdentifiersJoin(if |byBuild| == 2 then Some(byBuild[1]) else None, ValidIdentifier);
  }

  method ValidateIdentifiers(parts: seq<string>, valid: string -> bool) returns (ok: bool)
    ensures ok == forall i | 0 <= i < |parts| :: valid(parts[i])
  {
    for i := 0 to |parts|
      invariant forall j | 0 <= j < i :: valid(parts[j])
    {
      if !valid(parts[i]) {
        return false;
      }
    }
    return true;
  }

  /** The parser as written: it fills the fields one after the other. */
  method ParseVersion(raw: string) returns (parsed: Option<Version>)
    ensures parsed == Parse(raw)
    ensures parsed.Some? <==> exists v :: WellFormed(v) && Print(v) == Unprefixed(raw)
    ensures parsed.Some? ==> WellFormed(parsed.value) && Print(parsed.value) == Unprefixed(raw)
  {
    hide Split, Cut, Join, Value, Numeral;
    ghost var expected := Parse(raw);
    if expected.Some? {
      PrintParse(raw);
    }
    forall v | WellFormed(v) && Print(v) == Unprefixed(raw) ensures expected.Some? {
      ParsePrint(v);
      CoreParts(v);
      assert Print(v)[0] == Core(v)[0];
      assert Unprefixed(Print(v)) == Print(v);
    }
    var byBuild := Split(Unprefixed(raw), '+');
    if |byBuild| > 2 {
      return None;
    }
    var (coreText, preText) := Cut(byBuild[0], '-');
    var core := Split(coreText, '.');
    if |core| != 3 {
      return None;
    }
    var values := [];
    for i := 0 to 3
      invariant |values| == i
      invariant forall j | 0 <= j < i :: ValidComponent(core[j]) && values[j] == Value(core[j])
    {
      if !IsNumeral(core[i]) || Value(core[i]) >= UINT64_LIMIT {
        return None;
      }
      values := values + [Value(core[i])];
    }
    var version := Version(values[0], values[1], values[2], [], []);
    if preText.Some? {
      var parts := Split(preText.value, '.');
      var ok := ValidateIdentifiers(parts, ValidPre);
      if !ok {
        return None;
      }
      version := version.(pre := parts);
    }
    if |byBuild| == 2 {
      var parts := Split(byBuild[1], '.');
      var ok := ValidateIdentifiers(parts, ValidIdentifier);
      if !ok {
        return None;
      }
      version := version.(build := parts);
    }
    return Some(version);
  }

  // ------------------------------------------------------------------ precedence

  /** Section 11.4: numeric identifiers compare as numbers and come before the others, which
      compare as text. */
  function IdentifierOrder(left: string, right: string): int {
    if IsDigits(left) && IsDigits(right) then Sign(Value(left), Value(right))
    else if IsDigits(left) then -1
    else if IsDigits(right) then 1
    else TextOrder(left, right)
  }

  /** Sections 11.4.1 to 11.4.4: the first difference decides, then the longer list is greater. */
  function PreOrder(left: seq<string>, right: seq<string>): int {
    if left == [] || right == [] then Sign(|left|, |right|)
    else if IdentifierOrder(left[0], right[0]) != 0 then IdentifierOrder(left[0], right[0])
    else PreOrder(left[1..], right[1..])
  }

  /** Section 11: a pre-release comes before the release it leads to; build metadata is ignored. */
  function Precedence(left: Version, right: Version): int {
    if left.major != right.major then Sign(left.major, right.major)
    else if left.minor != right.minor then Sign(left.minor, right.minor)
    else if left.patch != right.patch then Sign(left.patch, right.patch)
    else if left.pre == [] || right.pre == [] then Sign(|right.pre|, |left.pre|)
    else PreOrder(left.pre, right.pre)
  }

  /** Numerals are compared by length and then as text, and that is their order as numbers. */
  lemma NumeralOrder(left: string, right: string)
    requires IsNumeral(left) && IsNumeral(right)
    ensures Sign(Value(left), Value(right))
         == if |left| != |right| then Sign(|left|, |right|) else TextOrder(left, right)
  {
    if |left| == |right| {
      SameLengthOrder(left, right);
    } else if |left| < |right| {
      ShorterIsSmaller(left, right);
    } else {
      ShorterIsSmaller(right, left);
    }
  }

  lemma IdentifierOrderZero(left: string, right: string)
    requires ValidPre(left) && ValidPre(right)
    ensures IdentifierOrder(left, right) == 0 <==> left == right
  {
    TextOrderLaws(left, right, left);
    if IsDigits(left) && IsDigits(right) {
      NumeralOrder(left, right);
    }
  }

  lemma {:induction false} PreOrderLaws(a: seq<string>, b: seq<string>, c: seq<string>)
    ensures PreOrder(a, b) == -PreOrder(b, a)
    ensures PreOrder(a, b) <= 0 && PreOrder(b, c) <= 0 ==> PreOrder(a, c) <= 0
    decreases |a| + |b| + |c|
  {
    if a != [] && b != [] {
      PreOrderLaws(a[1..], b[1..], if c == [] then [] else c[1..]);
      TextOrderLaws(a[0], b[0], if c == [] then "" else c[0]);
      if c != [] {
        IdentifierOrderLaws(a[0], b[0], c[0]);
      }
    }
  }

  lemma IdentifierOrderLaws(a: string, b: string, c: string)
    ensures IdentifierOrder(a, b) == -IdentifierOrder(b, a)
    ensures IdentifierOrder(a, b) <= 0 && IdentifierOrder(b, c) <= 0 ==>
              && IdentifierOrder(a, c) <= 0
              && (IdentifierOrder(a, c) == 0 ==> IdentifierOrder(a, b) == 0 && IdentifierOrder(b, c) == 0)
  {
    TextOrderLaws(a, b, c);
    TextOrderLaws(b, c, a);
    TextOrderLaws(c, a, b);
  }

  lemma {:induction false} PreOrderZero(a: seq<string>, b: seq<string>)
    requires forall i | 0 <= i < |a| :: ValidPre(a[i])
    requires forall i | 0 <= i < |b| :: ValidPre(b[i])
    ensures PreOrder(a, b) == 0 <==> a == b
  {
    if a != [] && b != [] {
      IdentifierOrderZero(a[0], b[0]);
      PreOrderZero(a[1..], b[1..]);
      assert a == [a[0]] + a[1..] && b == [b[0]] + b[1..];
    }
  }

  /** Precedence is a total preorder whose ties are the versions that differ in build metadata only. */
  lemma PrecedenceIsTotalPreorder(a: Version, b: Version, c: Version)
    requires WellFormed(a) && WellFormed(b) && WellFormed(c)
    ensures Precedence(a, b) == -Precedence(b, a)
    ensures Precedence(a, b) <= 0 && Precedence(b, c) <= 0 ==> Precedence(a, c) <= 0
    ensures Precedence(a, b) == 0 <==> a.(build := []) == b.(build := [])
  {
    PreOrderLaws(a.pre, b.pre, c.pre);
    PreOrderZero(a.pre, b.pre);
  }

  /** The first differing number decides, whatever follows it. */
  lemma NumbersDecide(left: Version, right: Version)
    requires
      || left.major < right.major
      || (left.major == right.major && left.minor < right.minor)
      || (left.major == right.major && left.minor == right.minor && left.patch < right.patch)
    ensures Precedence(left, right) < 0 < Precedence(right, left)
  {
  }

  /** A pre-release comes before its release. */
  lemma ReleaseComesLast(left: Version, right: Version)
    requires left.major == right.major && left.minor == right.minor && left.patch == right.patch
    requires left.pre != [] && right.pre == []
    ensures Precedence(left, right) < 0 < Precedence(right, left)
  {
  }

  /** `left` comes first if at the first difference it has the smaller number, or a number where the other
      has none, or the smaller text, or nothing more. */
  lemma IdentifiersDecide(left: Version, right: Version, k: nat, j: nat)
    requires left.major == right.major && left.minor == right.minor && left.patch == right.patch
    requires left.pre != [] && right.pre != []
    requires k <= |left.pre| && k < |right.pre| && left.pre[..k] == right.pre[..k]
    requires
      k == |left.pre| ||
      var l, r := left.pre[k], right.pre[k];
      || (IsDigits(l) && IsDigits(r) && Value(l) < Value(r))
      || (IsDigits(l) && !IsDigits(r))
      || (!IsDigits(l) && !IsDigits(r) && j <= |l| && j < |r| && l[..j] == r[..j] && (j == |l| || l[j] < r[j]))
    ensures Precedence(left, right) < 0 < Precedence(right, left)
  {
    if k < |left.pre| && !IsDigits(left.pre[k]) && !IsDigits(right.pre[k]) {
      TextDecides(left.pre[k], right.pre[k], j);
    }
    assert k < |left.pre| ==>
             IdentifierOrder(left.pre[k], right.pre[k]) < 0 < IdentifierOrder(right.pre[k], left.pre[k]);
    PreDecides(left.pre, right.pre, k);
  }

  lemma {:induction false} PreDecides(left: seq<string>, right: seq<string>, k: nat)
    requires k <= |left| && k < |right| && left[..k] == right[..k]
    requires k < |left| ==> IdentifierOrder(left[k], right[k]) < 0 < IdentifierOrder(right[k], left[k])
    ensures PreOrder(left, right) < 0 < PreOrder(right, left)
  {
    if k > 0 {
      assert left[0] == left[..k][0] == right[..k][0] == right[0];
      assert left[1..][..k - 1] == left[..k][1..] && right[1..][..k - 1] == right[..k][1..];
      SameIdentifier(left[0]);
      PreDecides(left[1..], right[1..], k - 1);
    }
  }

  lemma SameIdentifier(identifier: string)
    ensures IdentifierOrder(identifier, identifier) == 0
  {
    TextOrderLaws(identifier, identifier, identifier);
  }

  /** The comparison as written: numeric identifiers by length and then as text. */
  method CompareParsed(left: Version, right: Version) returns (order: int)
    requires WellFormed(left) && WellFormed(right)
    ensures order == Precedence(left, right)
  {
    var pairs := [(left.major, right.major), (left.minor, right.minor), (left.patch, right.patch)];
    for i := 0 to 3
      invariant forall j | 0 <= j < i :: pairs[j].0 == pairs[j].1
    {
      assert i > 0 ==> pairs[0].0 == pairs[0].1;
      assert i > 1 ==> pairs[1].0 == pairs[1].1;
      if pairs[i].0 < pairs[i].1 {
        return -1;
      }
      if pairs[i].0 > pairs[i].1 {
        return 1;
      }
    }
    assert pairs[0].0 == pairs[0].1 && pairs[1].0 == pairs[1].1 && pairs[2].0 == pairs[2].1;
    if left.pre == [] && right.pre == [] {
      return 0;
    }
    if left.pre == [] {
      return 1;
    }
    if right.pre == [] {
      return -1;
    }
    var index := 0;
    while index < |left.pre| && index < |right.pre|
      invariant index <= |left.pre| && index <= |right.pre|
      invariant PreOrder(left.pre, right.pre) == PreOrder(left.pre[index..], right.pre[index..])
    {
      var l, r := left.pre[index], right.pre[index];
      IdentifierOrderZero(l, r);
      TextOrderLaws(l, r, l);
      if l != r {
        var leftIsNumber, rightIsNumber := IsDigits(l), IsDigits(r);
        if leftIsNumber && rightIsNumber {
          NumeralOrder(l, r);
          return if |l| < |r| || (|l| == |r| && TextOrder(l, r) < 0) then -1 else 1;
        }
        if leftIsNumber {
          return -1;
        }
        if rightIsNumber {
          return 1;
        }
        return if TextOrder(l, r) < 0 then -1 else 1;
      }
      index := index + 1;
    }
    return Sign(|left.pre|, |right.pre|);
  }

  // ------------------------------------------------------------------ choosing an update

  datatype Channel = Stable | ReleaseCandidate

  /** A version belongs to a channel when it is a release or an rc pre-release with a number. */
  function ChannelOf(raw: string): Option<Channel> {
    match Parse(raw)
    case None => None
    case Some(v) =>
      if v.pre == [] then Some(Stable)
      else if |v.pre| == 2 && v.pre[0] == "rc" && IsDigits(v.pre[1]) then Some(ReleaseCandidate)
      else None
  }

  datatype Manifest = Manifest(version: string, url: string, sha256: string, signature: string)

  datatype Selection =
    | Selected(manifest: Manifest)
    | NoTransport
    | InvalidCurrent
    | FetchFailed
    | InvalidCandidate
    | NoUpdate
    | NoRCUpdate

  /** The precedence of two version strings that have a channel. */
  function Compared(left: string, right: string): int
    requires ChannelOf(left).Some? && ChannelOf(right).Some?
  {
    Precedence(Parse(left).value, Parse(right).value)
  }

  /** On the channel of the installed version, and newer (or as new, when that is asked for). */
  predicate Eligible(candidate: Manifest, current: string, includeCurrent: bool)
    requires ChannelOf(current).Some?
  {
    && ChannelOf(candidate.version) == ChannelOf(current)
    && (Compared(candidate.version, current) > 0 || (includeCurrent && Compared(candidate.version, current) == 0))
  }

  /** The strings of each channel: X.Y.Z, and X.Y.Z-rc.N, with or without a leading v and build metadata. */
  lemma ChannelIs(raw: string)
    ensures ChannelOf(raw) == Some(Stable) <==>
              exists v :: WellFormed(v) && Print(v) == Unprefixed(raw) && v.pre == []
    ensures ChannelOf(raw) == Some(ReleaseCandidate) <==>
              exists v :: WellFormed(v) && Print(v) == Unprefixed(raw)
                     && |v.pre| == 2 && v.pre[0] == "rc" && forall c | c in v.pre[1] :: '0' <= c <= '9'
  {
    hide Parse, Print;
    if Parse(raw).Some? {
      PrintParse(raw);
    }
    forall v | WellFormed(v) && Print(v) == Unprefixed(raw) ensures Parse(raw) == Some(v) {
      PrintedIsParsed(raw, v);
    }
    forall v | WellFormed(v) && |v.pre| == 2
      ensures IsDigits(v.pre[1]) <==> forall c | c in v.pre[1] :: '0' <= c <= '9'
    {
      assert ValidPre(v.pre[1]);
      assert forall i | 0 <= i < |v.pre[1]| :: v.pre[1][i] in v.pre[1];
    }
  }

  lemma PrintedIsParsed(raw: string, v: Version)
    requires WellFormed(v) && Print(v) == Unprefixed(raw)
    ensures Parse(raw) == Some(v)
  {
    ParsePrint(v);
    CoreParts(v);
    assert Print(v)[0] == Core(v)[0];
    assert Unprefixed(Print(v)) == Print(v);
  }

  /** What a version looks like. */
  lemma ReadAsWritten()
    ensures Parse("v10.2.3-rc.4+build.5") == Some(Version(10, 2, 3, ["rc", "4"], ["build", "5"]))
  {
    hide Parse, Print;
    ParsePrint(Version(10, 2, 3, ["rc", "4"], ["build", "5"]));
    PrintedCandidate();
    assert "v" + "10.2.3-rc.4+build.5" == "v10.2.3-rc.4+build.5";
  }

  lemma PrintedCandidate()
    ensures Print(Version(10, 2, 3, ["rc", "4"], ["build", "5"])) == "10.2.3-rc.4+build.5"
  {
    assert Numeral(1) == "1" && Numeral(10) == "10" && Numeral(2) == "2" && Numeral(3) == "3";
    hide Numeral;
    assert Join(["rc", "4"][1..], '.') == "4" && Join(["build", "5"][1..], '.') == "5";
    assert Core(Version(10, 2, 3, ["rc", "4"], ["build", "5"])) == "10.2.3";
  }

  /** Identifiers are of ASCII letters, digits and hyphens; a numeric one of a pre-release has no leading
      zero. Numbers have 64 bits. */
  lemma IdentifiersAre(s: string, v: Version)
    ensures ValidIdentifier(s) <==>
              s != "" && forall c | c in s :: '0' <= c <= '9' || 'a' <= c <= 'z' || 'A' <= c <= 'Z' || c == '-'
    ensures ValidPre(s) <==>
              ValidIdentifier(s) && (|s| > 1 && s[0] == '0' ==> exists c :: c in s && !('0' <= c <= '9'))
    ensures WellFormed(v) ==>
              v.major < 18446744073709551616 && v.minor < 18446744073709551616 && v.patch < 18446744073709551616
    ensures v.pre == v.build == [] ==>
              (WellFormed(v) <==>
                 v.major < 18446744073709551616 && v.minor < 18446744073709551616 && v.patch < 18446744073709551616)
  {
    assert forall i | 0 <= i < |s| :: s[i] in s;
    if c :| c in s && !('0' <= c <= '9') {
      assert !IsDigits(s);
    } else {
      assert s != "" ==> IsDigits(s);
    }
  }

  /** Newer by the numbers of a channel. */
  predicate Newer(channel: Channel, left: Version, right: Version) {
    || left.major > right.major
    || (left.major == right.major && left.minor > right.minor)
    || (left.major == right.major && left.minor == right.minor && left.patch > right.patch)
    || (left.major == right.major && left.minor == right.minor && left.patch == right.patch
        && channel == ReleaseCandidate && |left.pre| == |right.pre| == 2
        && IsDigits(left.pre[1]) && IsDigits(right.pre[1])
        && Value(left.pre[1]) > Value(right.pre[1]))
  }

  /** Within a channel the four numbers decide. */
  lemma ChannelOrder(left: string, right: string)
    requires ChannelOf(left).Some? && ChannelOf(left) == ChannelOf(right)
    ensures var l, r := Parse(left).value, Parse(right).value;
            Compared(left, right) < 0 <==>
              || l.major < r.major
              || (l.major == r.major && l.minor < r.minor)
              || (l.major == r.major && l.minor == r.minor && l.patch < r.patch)
              || (l.major == r.major && l.minor == r.minor && l.patch == r.patch
                  && ChannelOf(left) == Some(ReleaseCandidate) && Value(l.pre[1]) < Value(r.pre[1]))
  {
    hide Parse;
    var l, r := Parse(left).value, Parse(right).value;
    if ChannelOf(left) == Some(ReleaseCandidate) {
      SameIdentifier("rc");
      assert PreOrder(l.pre, r.pre) == PreOrder(l.pre[1..], r.pre[1..]);
      assert PreOrder(l.pre[1..], r.pre[1..]) == Sign(Value(l.pre[1]), Value(r.pre[1])) by {
        assert PreOrder(l.pre[1..][1..], r.pre[1..][1..]) == 0;
      }
    }
  }

  lemma NewerIs(left: string, right: string)
    requires ChannelOf(left).Some? && ChannelOf(left) == ChannelOf(right)
    ensures Newer(ChannelOf(left).value, Parse(left).value, Parse(right).value) <==> Compared(left, right) > 0
  {
    hide Parse, Precedence;
    ChannelOrder(right, left);
    ComparedIsTransitive(left, right, left);
  }

  /** What may be selected: a newer release of the same channel, and one that is as new if that is asked for. */
  lemma EligibleIs(candidate: Manifest, current: string, includeCurrent: bool)
    requires ChannelOf(current).Some?
    ensures Eligible(candidate, current, includeCurrent) <==>
              && ChannelOf(candidate.version) == ChannelOf(current)
              && var channel := ChannelOf(current).value;
                 var release, installed := Parse(candidate.version).value, Parse(current).value;
                 Newer(channel, release, installed) || (includeCurrent && !Newer(channel, installed, release))
  {
    hide Parse, Precedence, Newer;
    if ChannelOf(candidate.version) == ChannelOf(current) {
      NewerIs(candidate.version, current);
      NewerIs(current, candidate.version);
      ComparedIsTransitive(candidate.version, current, candidate.version);
    }
  }

  lemma ComparedIsTransitive(a: string, b: string, c: string)
    requires ChannelOf(a).Some? && ChannelOf(b).Some? && ChannelOf(c).Some?
    ensures Compared(a, b) == -Compared(b, a)
    ensures Compared(a, b) <= 0 && Compared(b, c) <= 0 ==> Compared(a, c) <= 0
    ensures Compared(a, b) < 0 && Compared(b, c) <= 0 ==> Compared(a, c) < 0
  {
    PrintParse(a);
    PrintParse(b);
    PrintParse(c);
    PrecedenceIsTotalPreorder(Parse(a).value, Parse(b).value, Parse(c).value);
    PrecedenceIsTotalPreorder(Parse(b).value, Parse(c).value, Parse(a).value);
    PrecedenceIsTotalPreorder(Parse(c).value, Parse(a).value, Parse(b).value);
  }

  method CompareVersions(left: string, right: string) returns (order: Option<int>)
    ensures order.Some? <==> Parse(left).Some? && Parse(right).Some?
    ensures order.Some? ==> order.value == Precedence(Parse(left).value, Parse(right).value)
  {
    var l := ParseVersion(left);
    if l.None? {
      return None;
    }
    var r := ParseVersion(right);
    if r.None? {
      return None;
    }
    var c := CompareParsed(l.value, r.value);
    return Some(c);
  }

  /** `best` is the first of the greatest eligible manifests. */
  ghost predicate IsFirstMaximum(best: nat, manifests: seq<Manifest>, current: string, includeCurrent: bool)
    requires ChannelOf(current).Some?
  {
    && best < |manifests| && Eligible(manifests[best], current, includeCurrent)
    && forall i | 0 <= i < |manifests| && Eligible(manifests[i], current, includeCurrent) ::
         && Compared(manifests[i].version, manifests[best].version) <= 0
         && (i < best ==> Compared(manifests[i].version, manifests[best].version) < 0)
  }

  /** What is selected is on the channel of the installed version, is not older, or newer unless as new is
      asked for, and no manifest of the channel is newer; nor as new if it stands before. The releases are
      compared by their four numbers. */
  lemma SelectedIsNewest(best: nat, manifests: seq<Manifest>, current: string, includeCurrent: bool, other: nat)
    requires ChannelOf(current).Some? && IsFirstMaximum(best, manifests, current, includeCurrent)
    requires other < |manifests| && ChannelOf(manifests[other].version) == ChannelOf(current)
    ensures best < |manifests| && ChannelOf(manifests[best].version) == ChannelOf(current)
    ensures Parse(manifests[best].version).Some? && Parse(current).Some? && Parse(manifests[other].version).Some?
    ensures var channel := ChannelOf(current).value;
            var chosen, installed := Parse(manifests[best].version).value, Parse(current).value;
            var rival := Parse(manifests[other].version).value;
            && !Newer(channel, installed, chosen) && (!includeCurrent ==> Newer(channel, chosen, installed))
            && !Newer(channel, rival, chosen)
            && (other < best
                && (Newer(channel, rival, installed) || (includeCurrent && !Newer(channel, installed, rival))) ==>
                  Newer(channel, chosen, rival))
  {
    hide Parse, Precedence, Newer;
    var top, rival := manifests[best].version, manifests[other].version;
    ComparedIsTransitive(rival, current, top);
    ComparedIsTransitive(current, rival, top);
    ComparedIsTransitive(top, rival, current);
    ComparedIsTransitive(current, top, rival);
    NewerIs(top, current);
    NewerIs(current, top);
    NewerIs(rival, current);
    NewerIs(current, rival);
    NewerIs(rival, top);
    NewerIs(top, rival);
  }

  lemma OneMoreManifest(best: nat, manifests: seq<Manifest>, current: string, includeCurrent: bool)
    requires ChannelOf(current).Some? && manifests != []
    requires var last := |manifests| - 1;
             && IsFirstMaximum(best, manifests[..last], current, includeCurrent)
             && ChannelOf(manifests[last].version).Some?
    ensures var last := |manifests| - 1;
            var greater := Eligible(manifests[last], current, includeCurrent)
                           && Compared(manifests[last].version, manifests[best].version) > 0;
            IsFirstMaximum(if greater then last else best, manifests, current, includeCurrent)
  {
    hide Parse, Precedence;
    var last := |manifests| - 1;
    var top, candidate := manifests[best].version, manifests[last].version;
    ComparedIsTransitive(candidate, top, candidate);
    ComparedIsTransitive(candidate, candidate, candidate);
    forall i | 0 <= i < last && Eligible(manifests[i], current, includeCurrent)
      ensures Compared(manifests[i].version, top) <= 0
      ensures i < best ==> Compared(manifests[i].version, top) < 0
      ensures Compared(candidate, top) > 0 ==> Compared(manifests[i].version, candidate) < 0
    {
      assert manifests[..last][i] == manifests[i];
      ComparedIsTransitive(top, candidate, manifests[i].version);
      ComparedIsTransitive(candidate, manifests[i].version, top);
    }
  }

  /** One candidate of an unknown channel spoils the whole choice. */
  method SelectManifest(transport: bool, current: string, fetched: Option<seq<Manifest>>, includeCurrent: bool)
    returns (selection: Selection)
    ensures selection == NoTransport <==> !transport
    ensures selection == InvalidCurrent <==> transport && ChannelOf(current).None?
    ensures selection == FetchFailed <==> transport && ChannelOf(current).Some? && fetched.None?
    ensures selection == InvalidCandidate <==>
              && transport && ChannelOf(current).Some? && fetched.Some?
              && exists i :: 0 <= i < |fetched.value| && ChannelOf(fetched.value[i].version).None?
    ensures selection.Selected? ==>
              && ChannelOf(current).Some? && fetched.Some?
              && exists best: nat :: IsFirstMaximum(best, fetched.value, current, includeCurrent)
                                && selection.manifest == fetched.value[best]
    ensures selection == NoUpdate || selection == NoRCUpdate ==>
              && ChannelOf(current).Some? && fetched.Some?
              && (forall i | 0 <= i < |fetched.value| :: !Eligible(fetched.value[i], current, includeCurrent))
              && (selection == NoRCUpdate <==> ChannelOf(current) == Some(ReleaseCandidate))
  {
    hide Parse, Precedence;
    if !transport {
      return NoTransport;
    }
    var channel := ChannelOf(current);
    if channel.None? {
      return InvalidCurrent;
    }
    if fetched.None? {
      return FetchFailed;
    }
    var manifests := fetched.value;
    var selected: Option<nat> := None;
    for index := 0 to |manifests|
      invariant forall i | 0 <= i < index :: ChannelOf(manifests[i].version).Some?
      invariant selected.None? ==> forall i | 0 <= i < index :: !Eligible(manifests[i], current, includeCurrent)
      invariant selected.Some? ==>
                  selected.value < index && IsFirstMaximum(selected.value, manifests[..index], current, includeCurrent)
    {
      assert manifests[..index + 1][..index] == manifests[..index];
      if selected.Some? && ChannelOf(manifests[index].version).Some? {
        OneMoreManifest(selected.value, manifests[..index + 1], current, includeCurrent);
      }
      var candidate := manifests[index].version;
      if ChannelOf(candidate).None? {
        return InvalidCandidate;
      }
      if ChannelOf(candidate) != channel {
        continue;
      }
      var comparison := CompareVersions(candidate, current);
      if comparison.value < 0 || (comparison.value == 0 && !includeCurrent) {
        continue;
      }
      if selected.None? {
        ComparedIsTransitive(candidate, candidate, candidate);
        selected := Some(index);
        continue;
      }
      comparison := CompareVersions(candidate, manifests[selected.value].version);
      if comparison.value > 0 {
        selected := Some(index);
      }
    }
    assert manifests[..|manifests|] == manifests;
    if selected.None? {
      return if channel.value == ReleaseCandidate then NoRCUpdate else NoUpdate;
    }
    return Selected(manifests[selected.value]);
  }
}
