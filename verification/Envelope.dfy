/** Signed release artifacts as text (internal/udevauth/envelope.go). Every character stands for one
    byte. The digest and the signature check are parameters. */
module Envelope {
  import opened Bytes
  import opened Text
  import Base64
  import Versions

  const POLICY_DOMAIN := "attack-shark-udev-policy-v1"
  const SCRIPT_DOMAIN := "attack-shark-udev-helper-v1"
  const MAX_ENVELOPE_BYTES := 96 * 1024
  const MAX_POLICY_BYTES := 64 * 1024
  const MAX_PREVIOUS_DIGESTS := 16
  const SIGNATURE_SIZE := 64

  datatype Artifact = Artifact(domain: string, version: string, digest: string, previous: string, payload: seq<byte>)

  predicate ValidVersion(v: string) {
    && 0 < |v| <= 80
    && '\r' !in v && '\n' !in v && '=' !in v && ' ' !in v
    && Versions.Parse(v).Some?
  }

  predicate IsHexDigest(s: string) {
    |s| == 64 && forall i | 0 <= i < |s| :: '0' <= s[i] <= '9' || 'a' <= s[i] <= 'f'
  }

  /** Strictly ascending, so without duplicates. */
  ghost predicate ValidDigests(items: seq<string>) {
    && |items| <= MAX_PREVIOUS_DIGESTS
    && (forall i | 0 <= i < |items| :: IsHexDigest(items[i]))
    && forall i | 0 < i < |items| :: TextOrder(items[i - 1], items[i]) < 0
  }

  ghost predicate ValidHistory(history: string) {
    ValidDigests(Split(history, ','))
  }

  /** The first character in which they differ is smaller in `left`. */
  ghost predicate Before(left: string, right: string) {
    exists k :: 0 <= k < |left| && k < |right| && left[..k] == right[..k] && left[k] < right[k]
  }

  lemma {:induction false} LowerIsBefore(left: string, right: string)
    requires |left| == |right| && TextOrder(left, right) < 0
    ensures Before(left, right)
  {
    if left[0] == right[0] {
      LowerIsBefore(left[1..], right[1..]);
      var k :| 0 <= k < |left| - 1 && left[1..][..k] == right[1..][..k] && left[1..][k] < right[1..][k];
      assert left[..k + 1] == [left[0]] + left[1..][..k] && right[..k + 1] == [right[0]] + right[1..][..k];
      assert left[k + 1] < right[k + 1];
    } else {
      assert left[..0] == right[..0];
    }
  }

  lemma BeforeIff(left: string, right: string)
    requires |left| == |right|
    ensures TextOrder(left, right) < 0 <==> Before(left, right)
  {
    if Before(left, right) {
      var k :| 0 <= k < |left| && k < |right| && left[..k] == right[..k] && left[k] < right[k];
      TextDecides(left, right, k);
    } else if TextOrder(left, right) < 0 {
      LowerIsBefore(left, right);
    }
  }

  /** A history in text: one to sixteen digests of 64 lower-case hexadecimal digits, separated by commas,
      in which a smaller character at the first difference comes first. */
  lemma HistoryIs(digests: seq<string>)
    requires digests != [] && forall i | 0 <= i < |digests| :: ',' !in digests[i]
    ensures ValidHistory(Join(digests, ',')) <==>
              && |digests| <= 16
              && (forall i | 0 <= i < |digests| ::
                    |digests[i]| == 64 && forall c | c in digests[i] :: c in "0123456789abcdef")
              && forall i | 0 < i < |digests| :: Before(digests[i - 1], digests[i])
  {
    assert Separable(digests, ',');
    SplitJoin(digests, ',');
    hide IsHexDigest, Before, Split, Join, TextOrder;
    forall i | 0 <= i < |digests|
      ensures IsHexDigest(digests[i]) <==>
                |digests[i]| == 64 && forall c | c in digests[i] :: c in "0123456789abcdef"
    {
      DigestIs(digests[i]);
    }
    forall i | 0 < i < |digests| && |digests[i - 1]| == |digests[i]|
      ensures TextOrder(digests[i - 1], digests[i]) < 0 <==> Before(digests[i - 1], digests[i])
    {
      BeforeIff(digests[i - 1], digests[i]);
    }
  }

  lemma DigestIs(s: string)
    ensures IsHexDigest(s) <==> |s| == 64 && forall c | c in s :: c in "0123456789abcdef"
  {
    forall c: char ensures ('0' <= c <= '9' || 'a' <= c <= 'f') <==> c in "0123456789abcdef" {
      HexDigit(c);
    }
    assert forall i | 0 <= i < |s| :: s[i] in s;
  }

  /** The rule of a receiver, by the last digit of its product. */
  function Rule(digit: char): string {
    "SUBSYSTEM==\"hidraw\", " + "ATTRS{idVendor}==\"1d57\", " + "ATTRS{idProduct}==\"fa6" + [digit]
    + "\", TAG+=\"uaccess\", MODE=\"0660\""
  }

  const RULES := [Rule('0'), Rule('1')]

  function Chars(b: seq<byte>): (s: string)
    ensures |s| == |b|
  {
    seq(|b|, i requires 0 <= i < |b| => b[i] as char)
  }

  predicate IsPrintable(line: string) {
    forall i | 0 <= i < |line| :: line[i] >= ' ' && line[i] != '\U{7F}'
  }

  predicate IsComment(line: string) {
    line == "" || line[0] == '#'
  }

  /** Nothing but the two rules, comments and blank lines, and at least one rule. */
  ghost predicate ValidLines(lines: seq<string>) {
    && (forall line | line in lines :: IsPrintable(line) && (IsComment(line) || line in RULES))
    && exists line :: line in lines && !IsComment(line)
  }

  ghost predicate ValidPolicy(b: seq<byte>) {
    && 0 < |b| <= MAX_POLICY_BYTES && b[|b| - 1] == '\n' as int
    && ValidLines(Split(Chars(b[..|b| - 1]), '\n'))
  }

  /** What may be signed. */
  ghost predicate Signable(e: Artifact, sum: seq<byte> -> string) {
    && ValidVersion(e.version) && IsHexDigest(e.digest)
    && (e.domain == POLICY_DOMAIN || e.domain == SCRIPT_DOMAIN)
    && (e.domain == POLICY_DOMAIN ==> ValidHistory(e.previous) && ValidPolicy(e.payload) && sum(e.payload) == e.digest)
  }

  function SignedLines(e: Artifact): seq<string> {
    [e.domain, "version=" + e.version, "sha256=" + e.digest]
    + (if e.domain == POLICY_DOMAIN then ["previous=" + e.previous, "payload=" + Base64.Encode(e.payload)] else [])
  }

  function WireLines(e: Artifact, signature: seq<byte>): seq<string> {
    SignedLines(e) + ["signature=" + Base64.Encode(signature)]
  }

  /** Every line is ended. */
  function Lines(lines: seq<string>): string {
    Join(lines + [""], '\n')
  }

  /** What the constructors build: the artifact of a script has neither history nor payload. */
  predicate Constructible(e: Artifact) {
    e.domain == SCRIPT_DOMAIN ==> e.previous == "" && e.payload == []
  }

  /** The wire form of a signed artifact. */
  ghost predicate IsWire(wire: string, e: Artifact, signature: seq<byte>, sum: seq<byte> -> string) {
    Signable(e, sum) && |signature| == SIGNATURE_SIZE && wire == Lines(WireLines(e, signature))
  }

  /** The rules of the two receivers, in text. */
  lemma RulesAre(line: string)
    ensures line in RULES <==>
              exists digit | digit in "01" ::
                line == "SUBSYSTEM==\"hidraw\", " + "ATTRS{idVendor}==\"1d57\", " + "ATTRS{idProduct}==\"fa6" + [digit]
                        + "\", TAG+=\"uaccess\", MODE=\"0660\""
    ensures line in RULES ==> !IsComment(line)
  {
    assert "01"[0] == '0' && "01"[1] == '1';
    if line in RULES {
      var i :| 0 <= i < 2 && line == RULES[i] == Rule("01"[i]);
      assert "01"[i] in "01";
      assert line[0] == "SUBSYSTEM==\"hidraw\", "[0] == 'S';
    }
  }

  /** A policy in text: at most 64 KiB of lines without control characters, each ended, each empty, a
      comment or one of the rules, and with one rule at least. */
  lemma PolicyIs(lines: seq<string>, b: seq<byte>)
    requires lines != [] && forall i | 0 <= i < |lines| :: '\n' !in lines[i]
    requires |b| == |Lines(lines)| && forall i | 0 <= i < |b| :: b[i] as char == Lines(lines)[i]
    ensures ValidPolicy(b) <==>
              && |b| <= 65536
              && (forall i | 0 <= i < |lines| :: forall c | c in lines[i] :: ' ' <= c && c != '\U{7F}')
              && (forall i | 0 <= i < |lines| :: lines[i] == "" || lines[i][0] == '#' || lines[i] in RULES)
              && exists i :: 0 <= i < |lines| && lines[i] in RULES
  {
    PolicyLines(lines, b);
    hide Split, Join, Lines, Chars, RULES;
    forall i | 0 <= i < |lines|
      ensures IsPrintable(lines[i]) <==> forall c | c in lines[i] :: ' ' <= c && c != '\U{7F}'
      ensures lines[i] in RULES ==> !IsComment(lines[i])
    {
      PrintableIs(lines[i]);
      RulesAre(lines[i]);
    }
    assert forall i | 0 <= i < |lines| :: lines[i] in lines;
  }

  lemma PolicyLines(lines: seq<string>, b: seq<byte>)
    requires lines != [] && forall i | 0 <= i < |lines| :: '\n' !in lines[i]
    requires |b| == |Lines(lines)| && forall i | 0 <= i < |b| :: b[i] as char == Lines(lines)[i]
    ensures b != [] && b[|b| - 1] == '\n' as int && Split(Chars(b[..|b| - 1]), '\n') == lines
  {
    LinesEnd(lines);
    assert Separable(lines, '\n');
    SplitJoin(lines, '\n');
    hide Split, Join, Lines;
    assert Lines(lines)[|b| - 1] == '\n';
    assert Chars(b[..|b| - 1]) == Join(lines, '\n');
  }

  lemma PrintableIs(line: string)
    ensures IsPrintable(line) <==> forall c | c in line :: ' ' <= c && c != '\U{7F}'
  {
    assert forall i | 0 <= i < |line| :: line[i] in line;
  }

  lemma {:induction false} LinesEnd(lines: seq<string>)
    requires lines != []
    ensures Lines(lines) == Join(lines, '\n') + "\n"
  {
    if |lines| > 1 {
      LinesEnd(lines[1..]);
      assert (lines + [""])[1..] == lines[1..] + [""];
    } else {
      var line := lines[0];
      assert lines + [""] == [line, ""] && [line, ""][1..] == [""];
      assert Lines(lines) == line + ['\n'] + Join([""], '\n') == line + "\n";
    }
  }

  /** The text that is signed, and the text on the wire. */
  lemma SignedTextIs(e: Artifact, signature: seq<byte>)
    ensures var head := e.domain + "\n" + ("version=" + e.version) + "\n" + ("sha256=" + e.digest) + "\n";
            Lines(SignedLines(e))
              == if e.domain == "attack-shark-udev-policy-v1"
                 then head + ("previous=" + e.previous) + "\n" + ("payload=" + Base64.Encode(e.payload)) + "\n"
                 else head
    ensures Lines(WireLines(e, signature))
              == Lines(SignedLines(e)) + ("signature=" + Base64.Encode(signature)) + "\n"
  {
    hide Lines;
    var head := [e.domain, "version=" + e.version, "sha256=" + e.digest];
    ThreeLinesAre(e.domain, "version=" + e.version, "sha256=" + e.digest);
    if e.domain == POLICY_DOMAIN {
      assert SignedLines(e) == head + ["previous=" + e.previous] + ["payload=" + Base64.Encode(e.payload)];
      LinesAppend(head, "previous=" + e.previous);
      LinesAppend(head + ["previous=" + e.previous], "payload=" + Base64.Encode(e.payload));
    } else {
      assert SignedLines(e) == head;
    }
    LinesAppend(SignedLines(e), "signature=" + Base64.Encode(signature));
  }

  lemma ThreeLinesAre(a: string, b: string, c: string)
    ensures Lines([a, b, c]) == a + "\n" + b + "\n" + c + "\n"
  {
    hide Lines;
    LinesAre([]);
    LinesAppend([], a);
    LinesAppend([a], b);
    LinesAppend([a, b], c);
    assert [] + [a] == [a] && [a] + [b] == [a, b] && [a, b] + [c] == [a, b, c];
  }

  /** What may be signed, and by how much. Nothing else than these two kinds of artifacts. */
  lemma SignableIs(e: Artifact, sum: seq<byte> -> string, signature: seq<byte>, wire: string)
    ensures Signable(e, sum) <==>
              && 1 <= |e.version| <= 80
              && (forall c | c in e.version :: c != '\r' && c != '\n' && c != '=' && c != ' ')
              && Versions.Parse(e.version).Some?
              && |e.digest| == 64 && (forall c | c in e.digest :: c in "0123456789abcdef")
              && (if e.domain == "attack-shark-udev-policy-v1"
                  then ValidHistory(e.previous) && ValidPolicy(e.payload) && sum(e.payload) == e.digest
                  else e.domain == "attack-shark-udev-helper-v1")
    ensures IsWire(wire, e, signature, sum) ==> |signature| == 64
  {
    hide ValidHistory, ValidPolicy, IsHexDigest;
    DigestIs(e.digest);
  }

  // ------------------------------------------------------------------ checks as written

  method CheckPolicy(b: seq<byte>) returns (ok: bool)
    ensures ok == ValidPolicy(b)
  {
    if |b| == 0 || |b| > MAX_POLICY_BYTES || b[|b| - 1] != '\n' as int {
      return false;
    }
    var count := 0;
    var lines := Split(Chars(b[..|b| - 1]), '\n');
    for i := 0 to |lines|
      invariant forall j | 0 <= j < i :: IsPrintable(lines[j]) && (IsComment(lines[j]) || lines[j] in RULES)
      invariant 0 <= count && (count > 0 <==> exists j :: 0 <= j < i && !IsComment(lines[j]))
    {
      var line := lines[i];
      for k := 0 to |line|
        invariant forall j | 0 <= j < k :: line[j] >= ' ' && line[j] != '\U{7F}'
      {
        if line[k] < ' ' || line[k] == '\U{7F}' {
          assert line in lines && !IsPrintable(line);
          return false;
        }
      }
      if IsComment(line) {
        continue;
      }
      if line !in RULES {
        assert line in lines;
        return false;
      }
      count := count + 1;
    }
    if count > 0 {
      var j :| 0 <= j < |lines| && !IsComment(lines[j]);
      assert lines[j] in lines;
    }
    return count > 0;
  }

  method CheckHistory(history: string) returns (ok: bool)
    ensures ok == ValidHistory(history)
  {
    var items := Split(history, ',');
    if |items| > MAX_PREVIOUS_DIGESTS {
      return false;
    }
    for i := 0 to |items|
      invariant forall j | 0 <= j < i :: IsHexDigest(items[j])
      invariant forall j | 0 < j < i :: TextOrder(items[j - 1], items[j]) < 0
    {
      if !IsHexDigest(items[i]) {
        return false;
      }
      if i > 0 && TextOrder(items[i - 1], items[i]) >= 0 {
        return false;
      }
    }
    return true;
  }

  method SignedBytes(e: Artifact, sum: seq<byte> -> string) returns (text: Option<string>)
    ensures text.Some? <==> Signable(e, sum)
    ensures text.Some? ==> text.value == Lines(SignedLines(e))
  {
    hide ValidHistory, ValidPolicy, ValidVersion, IsHexDigest;
    if !ValidVersion(e.version) || !IsHexDigest(e.digest) {
      return None;
    }
    var fields := [e.domain, "version=" + e.version, "sha256=" + e.digest];
    if e.domain == POLICY_DOMAIN {
      var history := CheckHistory(e.previous);
      var policy := CheckPolicy(e.payload);
      if !history || !policy || sum(e.payload) != e.digest {
        return None;
      }
      fields := fields + ["previous=" + e.previous, "payload=" + Base64.Encode(e.payload)];
    } else if e.domain != SCRIPT_DOMAIN {
      return None;
    }
    assert fields == SignedLines(e);
    var signed := EndLines(fields);
    return Some(signed);
  }

  /** Writes lines one after the other. */
  method EndLines(lines: seq<string>) returns (text: string)
    ensures text == Lines(lines)
  {
    text := "";
    for i := 0 to |lines|
      invariant text == Lines(lines[..i])
    {
      LinesAppend(lines[..i], lines[i]);
      assert lines[..i + 1] == lines[..i] + [lines[i]];
      text := text + lines[i] + "\n";
    }
    assert lines[..|lines|] == lines;
  }

  lemma LinesAre(lines: seq<string>)
    ensures Lines(lines) == if lines == [] then "" else lines[0] + "\n" + Lines(lines[1..])
  {
    if lines != [] {
      assert (lines + [""])[1..] == lines[1..] + [""];
    }
  }

  lemma {:induction false} LinesAppend(lines: seq<string>, line: string)
    ensures Lines(lines + [line]) == Lines(lines) + line + "\n"
  {
    hide Lines;
    LinesAre(lines);
    LinesAre(lines + [line]);
    if lines == [] {
      assert lines + [line] == [line] && [line][1..] == [];
      LinesAre([]);
    } else {
      assert (lines + [line])[1..] == lines[1..] + [line];
      LinesAppend(lines[1..], line);
      assert lines[0] + "\n" + (Lines(lines[1..]) + line + "\n") == (lines[0] + "\n" + Lines(lines[1..])) + line + "\n";
    }
  }

  method Marshal(e: Artifact, signature: seq<byte>, sum: seq<byte> -> string) returns (wire: Option<string>)
    ensures wire.Some? <==> Signable(e, sum) && |signature| == SIGNATURE_SIZE
    ensures wire.Some? ==> IsWire(wire.value, e, signature, sum)
  {
    hide ValidHistory, ValidPolicy, ValidVersion, IsHexDigest, Lines;
    var signed := SignedBytes(e, sum);
    if signed.None? || |signature| != SIGNATURE_SIZE {
      return None;
    }
    LinesAppend(SignedLines(e), "signature=" + Base64.Encode(signature));
    return Some(signed.value + ("signature=" + Base64.Encode(signature)) + "\n");
  }

  // ------------------------------------------------------------------ what a wire determines

  /** A line of a wire, without the name of its field. */
  function Field(line: string, prefix: string): string {
    if prefix <= line then line[|prefix|..] else ""
  }

  lemma FieldOf(prefix: string, value: string)
    ensures Field(prefix + value, prefix) == value
  {
  }

  /** Cut at its line breaks, a wire gives back its lines. */
  ghost predicate HasLines(lines: seq<string>, e: Artifact, signature: seq<byte>) {
    var n := if e.domain == POLICY_DOMAIN then 6 else 4;
    && |lines| == n + 1 && lines[n] == ""
    && lines[0] == e.domain && lines[1] == "version=" + e.version && lines[2] == "sha256=" + e.digest
    && (e.domain == POLICY_DOMAIN ==>
          lines[3] == "previous=" + e.previous && lines[4] == "payload=" + Base64.Encode(e.payload))
    && lines[n - 1] == "signature=" + Base64.Encode(signature)
  }

  lemma CodeAvoids(bytes: seq<byte>, c: char)
    requires c == '\n' || c == ','
    ensures c !in Base64.Encode(bytes)
  {
    Base64.DecodeEncode(bytes);
  }

  lemma HistoryAvoids(history: string)
    requires ValidHistory(history)
    ensures '\n' !in history && |history| <= 65 * MAX_PREVIOUS_DIGESTS
  {
    var items := Split(history, ',');
    JoinSplit(history, ',');
    JoinAvoids(items, ',', '\n');
    JoinedLength(items, 64);
  }

  lemma {:induction false} JoinedLength(items: seq<string>, length: nat)
    requires forall i | 0 <= i < |items| :: |items[i]| == length
    ensures |Join(items, ',')| <= (length + 1) * |items|
  {
    if |items| > 1 {
      JoinedLength(items[1..], length);
    }
  }

  lemma FieldAvoids(prefix: string, value: string)
    requires prefix in ["version=", "sha256=", "previous=", "payload=", "signature="] && '\n' !in value
    ensures '\n' !in prefix + value
  {
    assert '\n' !in prefix;
  }

  lemma DomainAvoids(e: Artifact, sum: seq<byte> -> string)
    requires Signable(e, sum)
    ensures e.domain == POLICY_DOMAIN || e.domain == SCRIPT_DOMAIN
    ensures '\n' !in e.domain && '\n' !in e.version && '\n' !in e.digest
  {
    hide ValidPolicy, ValidHistory, Versions.Parse;
    assert '\n' !in e.version && '\n' !in e.digest;
    DomainsAvoid();
  }

  lemma DomainsAvoid()
    ensures '\n' !in POLICY_DOMAIN && '\n' !in SCRIPT_DOMAIN
  {
  }

  lemma OneMoreSeparable(lines: seq<string>, line: string)
    requires Separable(lines, '\n') && '\n' !in line
    ensures Separable(lines + [line], '\n')
  {
  }

  lemma NothingSeparable()
    ensures Separable([], '\n')
  {
  }

  lemma SignedAvoids(e: Artifact, sum: seq<byte> -> string)
    requires Signable(e, sum)
    ensures Separable(SignedLines(e), '\n')
  {
    hide ValidPolicy, ValidHistory, Separable, IsHexDigest, ValidVersion;
    DomainAvoids(e, sum);
    FieldAvoids("version=", e.version);
    FieldAvoids("sha256=", e.digest);
    var head := [e.domain, "version=" + e.version, "sha256=" + e.digest];
    NothingSeparable();
    OneMoreSeparable([], e.domain);
    OneMoreSeparable([e.domain], "version=" + e.version);
    OneMoreSeparable([e.domain, "version=" + e.version], "sha256=" + e.digest);
    assert [] + [e.domain] == [e.domain] && [e.domain] + ["version=" + e.version] == [e.domain, "version=" + e.version];
    assert [e.domain, "version=" + e.version] + ["sha256=" + e.digest] == head;
    if e.domain == POLICY_DOMAIN {
      HistoryAvoids(e.previous);
      CodeAvoids(e.payload, '\n');
      FieldAvoids("previous=", e.previous);
      FieldAvoids("payload=", Base64.Encode(e.payload));
      OneMoreSeparable(head, "previous=" + e.previous);
      OneMoreSeparable(head + ["previous=" + e.previous], "payload=" + Base64.Encode(e.payload));
      assert SignedLines(e) == head + ["previous=" + e.previous] + ["payload=" + Base64.Encode(e.payload)];
    } else {
      assert SignedLines(e) == head;
    }
  }

  lemma WireAvoids(e: Artifact, signature: seq<byte>, sum: seq<byte> -> string)
    requires Signable(e, sum)
    ensures Separable(WireLines(e, signature) + [""], '\n')
  {
    hide Signable, SignedLines, Separable;
    SignedAvoids(e, sum);
    CodeAvoids(signature, '\n');
    FieldAvoids("signature=", Base64.Encode(signature));
    OneMoreSeparable(SignedLines(e), "signature=" + Base64.Encode(signature));
    OneMoreSeparable(WireLines(e, signature), "");
  }

  lemma WireHasLines(wire: string, e: Artifact, signature: seq<byte>, sum: seq<byte> -> string)
    requires IsWire(wire, e, signature, sum)
    ensures HasLines(Split(wire, '\n'), e, signature)
  {
    hide Signable, Split, Join;
    WireAvoids(e, signature, sum);
    var lines := WireLines(e, signature) + [""];
    SplitJoin(lines, '\n');
  }

  /** A wire determines the artifact and the signature. */
  lemma WireIsInjective(
    wire: string, e: Artifact, s: seq<byte>, e': Artifact, s': seq<byte>, sum: seq<byte> -> string)
    requires IsWire(wire, e, s, sum) && IsWire(wire, e', s', sum) && Constructible(e) && Constructible(e')
    ensures e == e' && s == s'
  {
    hide Signable, Lines, Split;
    WireHasLines(wire, e, s, sum);
    WireHasLines(wire, e', s', sum);
    DomainAvoids(e, sum);
    DomainAvoids(e', sum);
    FieldsAgree(e, s, e', s', Split(wire, '\n'));
  }

  lemma FieldsAgree(e: Artifact, s: seq<byte>, e': Artifact, s': seq<byte>, lines: seq<string>)
    requires HasLines(lines, e, s) && HasLines(lines, e', s')
    ensures e.domain == e'.domain && e.version == e'.version && e.digest == e'.digest && s == s'
    ensures e.domain == POLICY_DOMAIN ==> e.previous == e'.previous && e.payload == e'.payload
  {
    FieldOf("version=", e.version);
    FieldOf("version=", e'.version);
    FieldOf("sha256=", e.digest);
    FieldOf("sha256=", e'.digest);
    FieldOf("signature=", Base64.Encode(s));
    FieldOf("signature=", Base64.Encode(s'));
    Base64.DecodeEncode(s);
    Base64.DecodeEncode(s');
    if e.domain == POLICY_DOMAIN {
      FieldOf("previous=", e.previous);
      FieldOf("previous=", e'.previous);
      FieldOf("payload=", Base64.Encode(e.payload));
      FieldOf("payload=", Base64.Encode(e'.payload));
      Base64.DecodeEncode(e.payload);
      Base64.DecodeEncode(e'.payload);
    }
  }

  /** What is signed determines the artifact, across both domains. */
  lemma SignedIsInjective(e: Artifact, e': Artifact, sum: seq<byte> -> string)
    requires Signable(e, sum) && Signable(e', sum) && Constructible(e) && Constructible(e')
    requires Lines(SignedLines(e)) == Lines(SignedLines(e'))
    ensures e == e'
  {
    hide Lines, Signable;
    var signature: seq<byte> := seq(SIGNATURE_SIZE, _ => 0);
    LinesAppend(SignedLines(e), "signature=" + Base64.Encode(signature));
    LinesAppend(SignedLines(e'), "signature=" + Base64.Encode(signature));
    WireIsInjective(Lines(WireLines(e, signature)), e, signature, e', signature, sum);
  }

  /** Whatever can be marshalled fits: 64 KiB of policy, sixteen digests and a version of eighty
      characters take less than 96 KiB. */
  lemma WireFits(wire: string, e: Artifact, signature: seq<byte>, sum: seq<byte> -> string)
    requires IsWire(wire, e, signature, sum)
    ensures |wire| <= MAX_ENVELOPE_BYTES
  {
    assert |e.domain| == 27;
    assert e.domain == POLICY_DOMAIN ==> ValidHistory(e.previous) && |e.payload| <= MAX_POLICY_BYTES;
    hide Lines, ValidHistory, Signable;
    var head := [e.domain, "version=" + e.version, "sha256=" + e.digest];
    ThreeLinesAre(e.domain, "version=" + e.version, "sha256=" + e.digest);
    LinesAppend(SignedLines(e), "signature=" + Base64.Encode(signature));
    if e.domain == POLICY_DOMAIN {
      HistoryAvoids(e.previous);
      LinesAppend(head, "previous=" + e.previous);
      LinesAppend(head + ["previous=" + e.previous], "payload=" + Base64.Encode(e.payload));
      assert SignedLines(e) == head + ["previous=" + e.previous] + ["payload=" + Base64.Encode(e.payload)];
    } else {
      assert SignedLines(e) == head;
    }
  }

  // ------------------------------------------------------------------ parsing

  /** The wire is that of an artifact of this domain and version whose signature is good. */
  ghost predicate Authentic(
    wire: string, domain: string, expected: string, e: Artifact,
    sum: seq<byte> -> string, verify: (string, seq<byte>) -> bool)
  {
    && Constructible(e) && e.domain == domain && e.version == expected
    && exists signature :: IsWire(wire, e, signature, sum) && verify(Lines(SignedLines(e)), signature)
  }

  /** An artifact and a signature that the wire is authentic for, if there are any. */
  lemma FindAuthentic(
    wire: string, domain: string, expected: string, sum: seq<byte> -> string, verify: (string, seq<byte>) -> bool)
    returns (found: bool, e: Artifact, s: seq<byte>)
    ensures found ==>
              && Constructible(e) && e.domain == domain && e.version == expected
              && IsWire(wire, e, s, sum) && verify(Lines(SignedLines(e)), s)
              && HasLines(Split(wire, '\n'), e, s) && |wire| <= MAX_ENVELOPE_BYTES && ValidVersion(expected)
              && (domain == POLICY_DOMAIN || domain == SCRIPT_DOMAIN)
    ensures !found ==> forall e' :: !Authentic(wire, domain, expected, e', sum, verify)
  {
    hide Lines, Split, HasLines, ValidVersion, Signable, ValidPolicy, ValidHistory;
    found, e, s := false, Artifact("", "", "", "", []), [];
    if e' :| Authentic(wire, domain, expected, e', sum, verify) {
      var signature :| IsWire(wire, e', signature, sum) && verify(Lines(SignedLines(e')), signature);
      found, e, s := true, e', signature;
      WireHasLines(wire, e, s, sum);
      WireFits(wire, e, s, sum);
      SignableVersion(e, sum);
      DomainAvoids(e, sum);
    }
  }

  lemma SignableVersion(e: Artifact, sum: seq<byte> -> string)
    requires Signable(e, sum)
    ensures ValidVersion(e.version)
  {
  }

  /** The fields of a wire can be read out of its lines. */
  lemma FieldsRead(lines: seq<string>, e: Artifact, s: seq<byte>)
    requires HasLines(lines, e, s)
    ensures Field(lines[1], "version=") == e.version && Field(lines[2], "sha256=") == e.digest
    ensures Base64.Decode(Field(lines[|lines| - 2], "signature=")) == Some(s)
    ensures e.domain == POLICY_DOMAIN ==>
              && Field(lines[3], "previous=") == e.previous
              && Field(lines[4], "payload=") == Base64.Encode(e.payload)
              && Base64.Decode(Field(lines[4], "payload=")) == Some(e.payload)
  {
    FieldOf("version=", e.version);
    FieldOf("sha256=", e.digest);
    FieldOf("signature=", Base64.Encode(s));
    Base64.DecodeEncode(s);
    if e.domain == POLICY_DOMAIN {
      FieldOf("previous=", e.previous);
      FieldOf("payload=", Base64.Encode(e.payload));
      Base64.DecodeEncode(e.payload);
    }
  }

  /** The parser as written accepts exactly the wires of authentic artifacts. `goodKey` says that the
      public key has the right size. */
  method Parse(
    wire: string, domain: string, expected: string, goodKey: bool,
    sum: seq<byte> -> string, verify: (string, seq<byte>) -> bool)
    returns (result: Option<Artifact>)
    ensures result.Some? ==> goodKey && Authentic(wire, domain, expected, result.value, sum, verify)
    ensures result.None? ==> !goodKey || forall e :: !Authentic(wire, domain, expected, e, sum, verify)
  {
    hide Signable, Lines, Split, ValidVersion, Field, SignedLines, WireLines, Authentic;
    ghost var found, e, s := FindAuthentic(wire, domain, expected, sum, verify);
    if |wire| > MAX_ENVELOPE_BYTES || !goodKey || !ValidVersion(expected) {
      return None;
    }
    var lines := Split(wire, '\n');
    var n := if domain == POLICY_DOMAIN then 6 else 4;
    if |lines| != n + 1 || lines[n] != "" || lines[0] != domain {
      return None;
    }
    if found {
      FieldsRead(lines, e, s);
    }
    var parsed := Artifact(domain, Field(lines[1], "version="), Field(lines[2], "sha256="), "", []);
    if parsed.version != expected {
      return None;
    }
    if domain == POLICY_DOMAIN {
      var encoded := Field(lines[4], "payload=");
      var payload := Base64.Decode(encoded);
      if payload.None? || Base64.Encode(payload.value) != encoded {
        return None;
      }
      parsed := parsed.(previous := Field(lines[3], "previous="), payload := payload.value);
    }
    var signature := Base64.Decode(Field(lines[n - 1], "signature="));
    if signature.None? {
      return None;
    }
    assert found ==> parsed == e && signature.value == s;
    var canonical := Marshal(parsed, signature.value, sum);
    if canonical.None? || canonical.value != wire {
      return None;
    }
    var signed := SignedBytes(parsed, sum);
    if signed.None? || !verify(signed.value, signature.value) {
      return None;
    }
    ItIsAuthentic(wire, parsed, signature.value, sum, verify);
    return Some(parsed);
  }

  lemma ItIsAuthentic(
    wire: string, e: Artifact, s: seq<byte>, sum: seq<byte> -> string, verify: (string, seq<byte>) -> bool)
    requires Constructible(e) && IsWire(wire, e, s, sum) && verify(Lines(SignedLines(e)), s)
    ensures Authentic(wire, e.domain, e.version, e, sum, verify)
  {
  }

  /** What is marshalled and signed well parses back to the same artifact. */
  method MarshalThenParse(
    e: Artifact, signature: seq<byte>, sum: seq<byte> -> string, verify: (string, seq<byte>) -> bool)
    returns (parsed: Option<Artifact>)
    requires Constructible(e) && Signable(e, sum) && |signature| == SIGNATURE_SIZE
    requires verify(Lines(SignedLines(e)), signature)
    ensures parsed == Some(e)
  {
    hide Signable, Lines, WireLines;
    var wire := Marshal(e, signature, sum);
    ItIsAuthentic(wire.value, e, signature, sum, verify);
    parsed := Parse(wire.value, e.domain, e.version, true, sum, verify);
    ghost var s :| IsWire(wire.value, parsed.value, s, sum);
    WireIsInjective(wire.value, e, signature, parsed.value, s, sum);
  }
}
