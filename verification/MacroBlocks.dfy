/** The 128-byte logical block of a macro: its layout, its checksum and the timed encoder
    (internal/macros/x6timing.go, internal/macros/x6codec.go). */
module MacroBlocks {
  import opened Bytes

  const BLOCK_LENGTH := 128
  const PAIRS_OFFSET := 26
  const MAX_PAIR_BYTES := 100

  function Zeros(n: nat): (zeros: seq<byte>)
    ensures |zeros| == n && forall i | 0 <= i < n :: zeros[i] == 0
  {
    seq(n, _ => 0)
  }

  /** The sum of the bytes, without the wrap-around of the machine word. */
  function Sum(b: seq<byte>): nat {
    if b == [] then 0 else Sum(b[..|b| - 1]) + b[|b| - 1]
  }

  lemma {:induction false} SumBound(b: seq<byte>)
    ensures Sum(b) <= 255 * |b|
  {
    if b != [] {
      SumBound(b[..|b| - 1]);
    }
  }

  /** Mode, repeat count and pairs of a block, and nothing else. */
  function Layout(mode: byte, repeat: byte, pairs: seq<byte>): (b: seq<byte>)
    requires |pairs| <= MAX_PAIR_BYTES
    ensures |b| == BLOCK_LENGTH - 2
  {
    [mode, 0, 0, 0, repeat] + Zeros(20) + [|pairs| / 2] + pairs + Zeros(MAX_PAIR_BYTES - |pairs|)
  }

  /** A layout followed by its checksum, the high byte first. */
  function Sealed(b: seq<byte>): (block: seq<byte>)
    requires |b| == BLOCK_LENGTH - 2
    ensures |block| == BLOCK_LENGTH && block[..BLOCK_LENGTH - 2] == b
  {
    SumBound(b);
    b + [Sum(b) / 0x100, Sum(b) % 0x100]
  }

  /** Every byte counts. */
  lemma {:induction false} SumOf(left: seq<byte>, right: seq<byte>)
    ensures Sum([]) == 0 && (forall n: byte :: Sum([n]) == n)
    ensures Sum(left + right) == Sum(left) + Sum(right)
  {
    assert forall n: byte :: [n][..0] == [];
    if right == [] {
      assert left + right == left;
    } else {
      SumOf(left, right[..|right| - 1]);
      assert (left + right)[..|left + right| - 1] == left + right[..|right| - 1];
    }
  }

  lemma {:induction false} SumZeros(n: nat)
    ensures Sum(Zeros(n)) == 0
  {
    if n > 0 {
      SumZeros(n - 1);
      assert Zeros(n)[..n - 1] == Zeros(n - 1);
    }
  }

  /** Byte by byte: what stands where in a block, and that its last two bytes are the sum of the others,
      the more significant one first. */
  lemma SealedBytes(mode: byte, repeat: byte, pairs: seq<byte>)
    requires |pairs| <= 100
    ensures var block := Sealed(Layout(mode, repeat, pairs));
            && |block| == 128 && block[0] == mode && block[4] == repeat && block[25] == |pairs| / 2
            && block[26..26 + |pairs|] == pairs
            && (forall i | 0 < i < 126 && i != 4 && i != 25 && !(26 <= i < 26 + |pairs|) :: block[i] == 0)
            && block[126] as int * 0x100 + block[127] == mode as int + repeat as int + |pairs| / 2 + Sum(pairs)
  {
    var b := Layout(mode, repeat, pairs);
    LayoutReads(mode, repeat, pairs);
    SumOfLayout(mode, repeat, pairs);
    hide Sum, Layout;
    forall i | 0 < i < 126 && i != 4 && i != 25 && !(26 <= i < 26 + |pairs|) ensures Sealed(b)[i] == 0 {
      LayoutIsZero(mode, repeat, pairs, i);
      assert Sealed(b)[i] == Sealed(b)[..126][i];
    }
  }

  lemma LayoutIsZero(mode: byte, repeat: byte, pairs: seq<byte>, i: nat)
    requires |pairs| <= 100 && 0 < i < 126 && i != 4 && i != 25 && !(26 <= i < 26 + |pairs|)
    ensures Layout(mode, repeat, pairs)[i] == 0
  {
  }

  lemma SumOfLayout(mode: byte, repeat: byte, pairs: seq<byte>)
    requires |pairs| <= 100
    ensures Sum(Layout(mode, repeat, pairs)) == mode as int + repeat as int + |pairs| / 2 + Sum(pairs)
  {
    hide Sum, Zeros, Layout;
    LayoutInParts(mode, repeat, pairs);
    SumOfHead(mode, repeat);
    SumOfOne(|pairs| / 2);
    SumZeros(20);
    SumZeros(100 - |pairs|);
  }

  lemma LayoutInParts(mode: byte, repeat: byte, pairs: seq<byte>)
    requires |pairs| <= 100
    ensures Sum(Layout(mode, repeat, pairs))
              == Sum([mode, 0, 0, 0, repeat]) + Sum(Zeros(20)) + Sum([|pairs| / 2]) + Sum(pairs)
                 + Sum(Zeros(100 - |pairs|))
  {
    hide Sum, Zeros;
    SumOfParts([mode, 0, 0, 0, repeat], Zeros(20), [|pairs| / 2], pairs, Zeros(100 - |pairs|));
  }

  lemma SumOfOne(n: byte)
    ensures Sum([n]) == n
  {
    SumOf([], []);
  }

  lemma SumOfParts(a: seq<byte>, b: seq<byte>, c: seq<byte>, d: seq<byte>, e: seq<byte>)
    ensures Sum(a + b + c + d + e) == Sum(a) + Sum(b) + Sum(c) + Sum(d) + Sum(e)
  {
    hide Sum;
    SumOf(a + b + c + d, e);
    SumOf(a + b + c, d);
    SumOf(a + b, c);
    SumOf(a, b);
  }

  lemma SumOfHead(mode: byte, repeat: byte)
    ensures Sum([mode, 0, 0, 0, repeat]) == mode as int + repeat as int
  {
    hide Sum;
    SumOf([mode], [repeat]);
    SumOf([0], []);
    SumOfParts([mode], [0], [0], [0], [repeat]);
    assert [mode, 0, 0, 0, repeat] == [mode] + [0] + [0] + [0] + [repeat];
  }

  /** The checksum as written, in sixteen bits. It cannot overflow on a block. */
  method Checksum(b: array<byte>) returns (sum: nat)
    requires b.Length == BLOCK_LENGTH
    ensures sum == Sum(b[..BLOCK_LENGTH - 2]) < 0x1_0000
  {
    sum := 0;
    for i := 0 to BLOCK_LENGTH - 2
      invariant sum == Sum(b[..i]) <= 255 * i
    {
      sum := (sum + b[i]) % 0x1_0000;
      assert b[..i + 1][..i] == b[..i];
    }
  }

  // ------------------------------------------------------------------ timed events

  datatype Action = Down | Up

  /** A source event: its delay applies after it. */
  datatype TimedEvent = TimedEvent(code: byte, action: Action, delay: int)

  const MAX_EVENTS := 46
  const MAX_EXTENSIONS := 10
  const MAX_PAIRS := 50
  const EXTENDED := 1271
  const TERMINAL_DELAY := 10

  predicate ValidDelay(delay: int) {
    0 <= delay <= 65535 && !(delay >= EXTENDED && delay / 200 > 255)
  }

  /** The second pair of an event with a long delay: how many times 200 ms it waits. */
  function Quotient(delay: int): byte
    requires ValidDelay(delay)
  {
    if delay >= EXTENDED then delay / 200 else 0
  }

  /** The rest of the delay in units of 10 ms, made odd. */
  function Opcode(delay: int): (opcode: byte)
    requires ValidDelay(delay)
    ensures opcode < 0x80 && opcode % 2 == 1
  {
    var rest := if delay >= EXTENDED then delay % 200 else delay;
    var units := ((if rest == 0 then 1 else rest) + 5) / 10;
    if units % 2 == 0 then units + 1 else units
  }

  function WithAction(opcode: byte, action: Action): byte
    requires opcode < 0x80
  {
    if action == Up then opcode + 0x80 else opcode
  }

  function EventPairs(code: byte, action: Action, delay: int): (pairs: seq<byte>)
    requires ValidDelay(delay)
    ensures |pairs| == if delay >= EXTENDED then 4 else 2
  {
    [WithAction(Opcode(delay), action), code] + (if delay >= EXTENDED then [Quotient(delay), 3] else [])
  }

  /** The delay that is encoded: the last event always waits 10 ms. */
  function EncodedDelay(events: seq<TimedEvent>): int
    requires events != []
  {
    if |events| == 1 then TERMINAL_DELAY else events[0].delay
  }

  function Pairs(events: seq<TimedEvent>): seq<byte>
    requires forall i | 0 <= i < |events| :: ValidDelay(events[i].delay)
  {
    if events == [] then []
    else EventPairs(events[0].code, events[0].action, EncodedDelay(events)) + Pairs(events[1..])
  }

  function Extensions(events: seq<TimedEvent>): nat {
    if events == [] then 0 else (if EncodedDelay(events) >= EXTENDED then 1 else 0) + Extensions(events[1..])
  }

  lemma {:induction false} PairsLength(events: seq<TimedEvent>)
    requires forall i | 0 <= i < |events| :: ValidDelay(events[i].delay)
    ensures |Pairs(events)| == 2 * (|events| + Extensions(events))
  {
    if events != [] {
      PairsLength(events[1..]);
    }
  }

  /** The second byte of the first pair is the code, its lowest bit is set and its highest bit means a
      release. Together with the 200 ms steps of a second pair, which only long delays have, it waits as
      long as the source to within -4 and +15 ms; of the odd opcodes that fits exactly one. */
  lemma EventPairsAre(code: byte, action: Action, delay: int)
    requires ValidDelay(delay)
    ensures var pairs := EventPairs(code, action, delay);
            && |pairs| == (if delay < 1271 then 2 else 4)
            && pairs[1] == code && pairs[0] % 2 == 1 && (pairs[0] >= 0x80 <==> action == Up)
            && (delay >= 1271 ==> 0 <= delay - pairs[2] as int * 200 < 200 && pairs[3] == 3)
            && -4 <= 10 * (pairs[0] as int % 0x80) + (if delay >= 1271 then pairs[2] as int * 200 else 0) - delay <= 15
  {
    DelayError(delay);
    ActionBit(Opcode(delay), action);
    hide Opcode, WithAction;
  }

  lemma ActionBit(opcode: byte, action: Action)
    requires opcode < 0x80 && opcode % 2 == 1
    ensures var first := WithAction(opcode, action);
            first % 0x80 == opcode && first % 2 == 1 && (first >= 0x80 <==> action == Up)
  {
  }

  /** Events are encoded in order, each with its own delay but the last with 10 ms. */
  lemma PairsAre(event: TimedEvent, rest: seq<TimedEvent>)
    requires ValidDelay(event.delay) && forall i | 0 <= i < |rest| :: ValidDelay(rest[i].delay)
    ensures Pairs([]) == [] && Extensions([]) == 0
    ensures Pairs([event]) == EventPairs(event.code, event.action, 10) && Extensions([event]) == 0
    ensures rest != [] ==>
              && Pairs([event] + rest) == EventPairs(event.code, event.action, event.delay) + Pairs(rest)
              && Extensions([event] + rest) == Extensions(rest) + if event.delay >= 1271 then 1 else 0
  {
    assert [event][1..] == [] && ([event] + rest)[1..] == rest;
  }

  /** What the host can encode. */
  ghost predicate Encodable(events: seq<TimedEvent>, repeat: int, mode: byte) {
    && 1 <= |events| <= MAX_EVENTS && 1 <= repeat <= 255 && mode <= 2
    && (forall i | 0 <= i < |events| :: ValidDelay(events[i].delay))
    && Extensions(events) <= MAX_EXTENSIONS
    && |events| + Extensions(events) <= MAX_PAIRS
  }

  /** The limits in numbers. The range of sixteen bits plays no part. */
  lemma EncodableIs(events: seq<TimedEvent>, repeat: int, mode: byte)
    ensures Encodable(events, repeat, mode) <==>
              && 1 <= |events| <= 46 && 1 <= repeat <= 255 && mode < 3
              && (forall i | 0 <= i < |events| :: 0 <= events[i].delay < 51200)
              && Extensions(events) <= 10 && |events| + Extensions(events) <= 50
  {
    assert forall i | 0 <= i < |events| :: ValidDelay(events[i].delay) <==> 0 <= events[i].delay < 51200;
  }

  ghost function TimedBlock(events: seq<TimedEvent>, repeat: int, mode: byte): (block: seq<byte>)
    requires Encodable(events, repeat, mode)
    ensures |block| == BLOCK_LENGTH
  {
    PairsLength(events);
    Sealed(Layout(mode, repeat, Pairs(events)))
  }

  /** A key with 10 ms: its pairs and its checksum. */
  lemma KeyBlock()
    ensures var events := [TimedEvent(4, Down, 10), TimedEvent(4, Up, 10)];
            && Encodable(events, 1, 0)
            && var block := TimedBlock(events, 1, 0);
               && block[..5] == [0, 0, 0, 0, 1] && block[25..30] == [2, 1, 4, 0x81, 4] && block[126..] == [0, 0x8d]
  {
    var down, up := TimedEvent(4, Down, 10), TimedEvent(4, Up, 10);
    var pairs: seq<byte> := [1, 4, 0x81, 4];
    assert [down] + [up] == [down, up];
    PairsAre(up, []);
    PairsAre(down, [up]);
    assert EventPairs(4, Down, 10) + EventPairs(4, Up, 10) == pairs;
    hide EventPairs, Layout, Sealed, Sum;
    SealedBytes(0, 1, pairs);
    SumOfOne(4);
    SumOfOne(1);
    SumOfOne(0x81);
    SumOfParts([], [1], [4], [0x81], [4]);
    SumOf([], []);
    assert pairs == [] + [1] + [4] + [0x81] + [4];
    var block := Sealed(Layout(0, 1, pairs));
    assert block[25..30] == [block[25]] + block[26..26 + 4];
  }

  datatype Option<T> = None | Some(value: T)

  /** Fills a buffer with a layout and its checksum. */
  method FillBlock(mode: byte, repeat: byte, pairs: seq<byte>) returns (block: seq<byte>)
    requires |pairs| <= MAX_PAIR_BYTES
    ensures block == Sealed(Layout(mode, repeat, pairs))
  {
    var b := new byte[BLOCK_LENGTH](_ => 0);
    b[0], b[4], b[25] := mode, repeat, |pairs| / 2;
    for i := 0 to |pairs|
      invariant b[0] == mode && b[4] == repeat && b[25] == |pairs| / 2
      invariant forall j | 0 <= j < i :: b[PAIRS_OFFSET + j] == pairs[j]
      invariant forall j | 0 < j < BLOCK_LENGTH && j != 4 && j != 25 && !(PAIRS_OFFSET <= j < PAIRS_OFFSET + i) ::
                  b[j] == 0
    {
      b[PAIRS_OFFSET + i] := pairs[i];
    }
    assert b[..BLOCK_LENGTH - 2] == Layout(mode, repeat, pairs);
    var sum := Checksum(b);
    b[126], b[127] := sum / 0x100, sum % 0x100;
    block := b[..];
    assert block[..BLOCK_LENGTH - 2] == Layout(mode, repeat, pairs);
  }

  /** The pairs of one event. */
  method EncodeEvent(code: byte, action: Action, wait: int) returns (pairs: seq<byte>)
    requires ValidDelay(wait)
    ensures pairs == EventPairs(code, action, wait)
  {
    var delay, quotient := wait, 0;
    if delay >= EXTENDED {
      quotient, delay := delay / 200, delay % 200;
    }
    if delay == 0 {
      delay := 1;
    }
    var opcode := (delay + 5) / 10;
    if opcode % 2 == 0 {
      opcode := opcode + 1;
    }
    if action == Up {
      opcode := opcode + 0x80;
    }
    pairs := [opcode, code];
    if quotient != 0 {
      pairs := pairs + [quotient, 3];
    }
  }

  lemma Encodes(events: seq<TimedEvent>, i: nat, pairs: seq<byte>, next: seq<byte>)
    requires i < |events| && forall j | 0 <= j < |events| :: ValidDelay(events[j].delay)
    requires pairs + Pairs(events[i..]) == Pairs(events)
    requires next == EventPairs(events[i].code, events[i].action, EncodedDelay(events[i..]))
    ensures pairs + next + Pairs(events[i + 1..]) == Pairs(events)
    ensures Extensions(events[i..])
              == (if EncodedDelay(events[i..]) >= EXTENDED then 1 else 0) + Extensions(events[i + 1..])
  {
    hide EventPairs, Opcode, Pairs;
    assert events[i..][1..] == events[i + 1..];
    PairsOfFirst(events[i..]);
    Regroup(pairs, next, Pairs(events[i + 1..]));
  }

  lemma PairsOfFirst(events: seq<TimedEvent>)
    requires events != [] && forall j | 0 <= j < |events| :: ValidDelay(events[j].delay)
    ensures Pairs(events) == EventPairs(events[0].code, events[0].action, EncodedDelay(events)) + Pairs(events[1..])
  {
    hide EventPairs;
  }

  lemma Regroup(a: seq<byte>, b: seq<byte>, c: seq<byte>)
    ensures a + b + c == a + (b + c)
  {
  }

  /** The encoder as written. */
  method EncodeTimedBlock(events: seq<TimedEvent>, repeat: int, mode: byte) returns (block: Option<seq<byte>>)
    ensures block.Some? <==> Encodable(events, repeat, mode)
    ensures block.Some? ==> block.value == TimedBlock(events, repeat, mode)
  {
    if |events| < 1 || |events| > MAX_EVENTS || repeat < 1 || repeat > 255 || mode > 2 {
      return None;
    }
    for i := 0 to |events|
      invariant forall j | 0 <= j < i :: ValidDelay(events[j].delay)
    {
      if !ValidDelay(events[i].delay) {
        return None;
      }
    }
    var pairs: seq<byte> := [];
    var extensions := 0;
    hide EventPairs, Opcode;
    for i := 0 to |events|
      invariant pairs + Pairs(events[i..]) == Pairs(events)
      invariant extensions + Extensions(events[i..]) == Extensions(events)
      invariant |pairs| == 2 * (i + extensions) && extensions <= MAX_EXTENSIONS && |pairs| <= MAX_PAIR_BYTES
    {
      var delay := if i == |events| - 1 then TERMINAL_DELAY else events[i].delay;
      var next := EncodeEvent(events[i].code, events[i].action, delay);
      Encodes(events, i, pairs, next);
      pairs := pairs + next;
      if delay >= EXTENDED {
        extensions := extensions + 1;
      }
      if extensions > MAX_EXTENSIONS || |pairs| > MAX_PAIR_BYTES {
        return None;
      }
    }
    assert pairs == Pairs(events);
    var b := FillBlock(mode, repeat, pairs);
    return Some(b);
  }

  // ------------------------------------------------------------------ decoding

  /** What can be read from the pairs of one event. */
  datatype Step = Step(code: byte, action: Action, opcode: byte, quotient: byte)

  /** A pair with code 3 extends the one before it. */
  predicate IsExtended(pairs: seq<byte>) {
    |pairs| >= 4 && pairs[3] == 3
  }

  function FirstStep(pairs: seq<byte>): Step
    requires |pairs| >= 2
  {
    Step(pairs[1], if pairs[0] >= 0x80 then Up else Down, pairs[0] % 0x80, if IsExtended(pairs) then pairs[2] else 0)
  }

  /** The host's reading of a block. */
  function ReadPairs(pairs: seq<byte>): seq<Step> {
    if |pairs| < 2 then []
    else [FirstStep(pairs)] + ReadPairs(pairs[if IsExtended(pairs) then 4 else 2..])
  }

  datatype Reading = Reading(mode: byte, repeat: byte, steps: seq<Step>)

  function ReadBlock(block: seq<byte>): Reading
    requires |block| == BLOCK_LENGTH && block[25] <= MAX_PAIRS
  {
    Reading(block[0], block[4], ReadPairs(block[PAIRS_OFFSET..PAIRS_OFFSET + 2 * block[25]]))
  }

  ghost function Steps(events: seq<TimedEvent>): (steps: seq<Step>)
    requires forall i | 0 <= i < |events| :: ValidDelay(events[i].delay)
    ensures |steps| == |events|
  {
    if events == [] then []
    else
      var delay := EncodedDelay(events);
      [Step(events[0].code, events[0].action, Opcode(delay), Quotient(delay))] + Steps(events[1..])
  }

  lemma ReadEvent(code: byte, action: Action, delay: int, tail: seq<byte>)
    requires ValidDelay(delay) && code != 3 && (tail == [] || (|tail| >= 2 && tail[1] != 3))
    ensures var pairs := EventPairs(code, action, delay) + tail;
            && FirstStep(pairs) == Step(code, action, Opcode(delay), Quotient(delay))
            && pairs[if IsExtended(pairs) then 4 else 2..] == tail
  {
    hide Opcode;
    var head := EventPairs(code, action, delay);
    if delay < EXTENDED && tail != [] {
      assert (head + tail)[3] == tail[1];
    }
  }

  lemma {:induction false} ReadPairsOf(events: seq<TimedEvent>)
    requires forall i | 0 <= i < |events| :: ValidDelay(events[i].delay) && events[i].code != 3
    ensures ReadPairs(Pairs(events)) == Steps(events)
  {
    if events == [] {
      assert Pairs(events) == [];
    } else {
      hide EventPairs, FirstStep, IsExtended, Opcode, Quotient;
      ReadPairsOf(events[1..]);
      SecondByte(events[1..]);
      ReadEvent(events[0].code, events[0].action, EncodedDelay(events), Pairs(events[1..]));
    }
  }

  lemma SecondByte(events: seq<TimedEvent>)
    requires forall i | 0 <= i < |events| :: ValidDelay(events[i].delay)
    ensures if events == [] then Pairs(events) == [] else |Pairs(events)| >= 2 && Pairs(events)[1] == events[0].code
  {
  }

  lemma LayoutReads(mode: byte, repeat: byte, pairs: seq<byte>)
    requires |pairs| <= MAX_PAIR_BYTES
    ensures var block := Sealed(Layout(mode, repeat, pairs));
            && block[0] == mode && block[4] == repeat && block[25] == |pairs| / 2
            && block[PAIRS_OFFSET..PAIRS_OFFSET + |pairs|] == pairs
  {
    var b := Layout(mode, repeat, pairs);
    assert Sealed(b)[..126] == b;
    assert Sealed(b)[PAIRS_OFFSET..PAIRS_OFFSET + |pairs|] == b[PAIRS_OFFSET..PAIRS_OFFSET + |pairs|];
  }

  /** Every block the encoder returns can be read back: nothing but the delays is rounded. */
  lemma BlockIsReadable(events: seq<TimedEvent>, repeat: int, mode: byte)
    requires Encodable(events, repeat, mode)
    requires forall i | 0 <= i < |events| :: events[i].code != 3
    ensures TimedBlock(events, repeat, mode)[25] <= MAX_PAIRS
    ensures ReadBlock(TimedBlock(events, repeat, mode)) == Reading(mode, repeat, Steps(events))
  {
    hide Pairs, Sealed, Layout, ReadPairs, Steps, Extensions, Sum, ValidDelay;
    PairsLength(events);
    ReadPairsOf(events);
    LayoutReads(mode, repeat, Pairs(events));
    assert 2 * (|Pairs(events)| / 2) == |Pairs(events)|;
  }

  /** How far the encoded delay is from the delay of the source. */
  lemma DelayError(delay: int)
    requires ValidDelay(delay)
    ensures -4 <= 10 * Opcode(delay) + 200 * Quotient(delay) - delay <= 15
  {
  }

  lemma {:induction false} StepAt(events: seq<TimedEvent>, i: nat)
    requires i < |events| && forall j | 0 <= j < |events| :: ValidDelay(events[j].delay)
    ensures var delay := if i == |events| - 1 then TERMINAL_DELAY else events[i].delay;
            Steps(events)[i] == Step(events[i].code, events[i].action, Opcode(delay), Quotient(delay))
  {
    if i > 0 {
      StepAt(events[1..], i - 1);
    }
  }

  /** Blocks are uniquely decodable: two takes with the same block have the same mode, repeat count,
      codes and actions, and their delays differ by less than 20 ms. */
  lemma BlockDeterminesEvents(
    left: seq<TimedEvent>, leftRepeat: int, leftMode: byte, right: seq<TimedEvent>, rightRepeat: int, rightMode: byte)
    requires Encodable(left, leftRepeat, leftMode) && Encodable(right, rightRepeat, rightMode)
    requires forall i | 0 <= i < |left| :: left[i].code != 3
    requires forall i | 0 <= i < |right| :: right[i].code != 3
    requires TimedBlock(left, leftRepeat, leftMode) == TimedBlock(right, rightRepeat, rightMode)
    ensures leftRepeat == rightRepeat && leftMode == rightMode && |left| == |right|
    ensures forall i | 0 <= i < |left| :: left[i].code == right[i].code && left[i].action == right[i].action
    ensures forall i | 0 <= i < |left| - 1 :: -20 < left[i].delay - right[i].delay < 20
  {
    BlockIsReadable(left, leftRepeat, leftMode);
    BlockIsReadable(right, rightRepeat, rightMode);
    assert |Steps(left)| == |Steps(right)|;
    forall i | 0 <= i < |left|
      ensures left[i].code == right[i].code && left[i].action == right[i].action
      ensures i < |left| - 1 ==> -20 < left[i].delay - right[i].delay < 20
    {
      StepAt(left, i);
      StepAt(right, i);
      DelayError(left[i].delay);
      DelayError(right[i].delay);
    }
  }
}
