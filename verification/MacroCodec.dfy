/** Click sequences and the three reports that carry a block (internal/macros/x6codec.go). */
module MacroCodec {
  import opened Bytes
  import opened MacroBlocks

  // ------------------------------------------------------------------ framing

  const REPORT_LENGTH := 64
  const HEADERS: seq<seq<byte>> := [[9, 0x40, 5, 0], [9, 0x40, 5, 1], [9, 0x0c, 5, 2]]
  const CHUNK_SIZES := [60, 60, 8]

  predicate ValidDestination(destination: byte) {
    destination in {1, 2, 3, 5, 6, 7, 8}
  }

  function Header(destination: byte, i: nat): seq<byte>
    requires i < 3
  {
    HEADERS[i][2 := destination]
  }

  function Framed(destination: byte, block: seq<byte>): (reports: seq<seq<byte>>)
    requires |block| == BLOCK_LENGTH
    ensures |reports| == 3
  {
    [ Header(destination, 0) + block[..60],
      Header(destination, 1) + block[60..120],
      Header(destination, 2) + block[120..] + Zeros(52) ]
  }

  /** Byte by byte: report `i` starts 09 40, the last one 09 0c, then come the destination and `i`; byte `k`
      of the block is byte `k` mod 60 of what follows, and the rest is zero. */
  lemma FramedBytes(destination: byte, block: seq<byte>)
    requires |block| == 128
    ensures var reports := Framed(destination, block);
            && (forall i | 0 <= i < 3 ::
                  && |reports[i]| == 64 && reports[i][0] == 9
                  && reports[i][1] == (if i < 2 then 0x40 else 0x0c)
                  && reports[i][2] == destination && reports[i][3] == i)
            && (forall k | 0 <= k < 128 :: reports[k / 60][4 + k % 60] == block[k])
            && (forall j | 12 <= j < 64 :: reports[2][j] == 0)
    ensures ValidDestination(destination) <==> 1 <= destination <= 8 && destination != 4
  {
    var reports := Framed(destination, block);
    forall k | 0 <= k < 128 ensures reports[k / 60][4 + k % 60] == block[k] {
      assert reports[k / 60][4..][k % 60] == block[60 * (k / 60)..][k % 60];
    }
  }

  method EncodeFraming(destination: byte, block: seq<byte>) returns (reports: seq<seq<byte>>)
    requires |block| == BLOCK_LENGTH
    ensures reports == Framed(destination, block)
  {
    reports := [];
    var offset := 0;
    for i := 0 to 3
      invariant reports == Framed(destination, block)[..i]
      invariant offset == 60 * i || (i == 3 && offset == BLOCK_LENGTH)
    {
      var size := CHUNK_SIZES[i];
      var report := new byte[REPORT_LENGTH](_ => 0);
      forall j | 0 <= j < 4 {
        report[j] := HEADERS[i][j];
      }
      report[2] := destination;
      forall j | 0 <= j < size {
        report[4 + j] := block[offset + j];
      }
      assert report[..] == Framed(destination, block)[i];
      reports := reports + [report[..]];
      offset := offset + size;
    }
  }

  /** Takes the reports apart, and accepts nothing but what the framing produces. */
  method DecodeFraming(reports: seq<seq<byte>>) returns (destination: byte, block: Option<seq<byte>>)
    ensures block.Some? ==>
              && ValidDestination(destination) && |block.value| == BLOCK_LENGTH
              && reports == Framed(destination, block.value)
    ensures block.None? ==> forall d, b | ValidDestination(d) && |b| == BLOCK_LENGTH :: reports != Framed(d, b)
  {
    destination := 0;
    if |reports| != 3 || |reports[0]| != REPORT_LENGTH {
      return destination, None;
    }
    destination := reports[0][2];
    if !ValidDestination(destination) {
      return destination, None;
    }
    var b: seq<byte> := [];
    for i := 0 to 3
      invariant |b| == if i < 3 then 60 * i else BLOCK_LENGTH
      invariant forall j | 0 <= j < i :: |reports[j]| == REPORT_LENGTH && reports[j][..4] == Header(destination, j)
      invariant i > 0 ==> b[..60] == reports[0][4..]
      invariant i > 1 ==> b[60..120] == reports[1][4..]
      invariant i > 2 ==> b[120..] == reports[2][4..12] && forall j | 12 <= j < REPORT_LENGTH :: reports[2][j] == 0
    {
      var r, size := reports[i], CHUNK_SIZES[i];
      if |r| != REPORT_LENGTH || r[..4] != Header(destination, i) || exists j :: 4 + size <= j < |r| && r[j] != 0 {
        return destination, None;
      }
      ghost var before := b;
      b := b + r[4..4 + size];
      Joined(before, r[4..4 + size]);
      assert i == 0 ==> b[..60] == b[|before|..];
      assert i == 1 ==> b[60..120] == b[|before|..];
    }
    assert reports[0] == Header(destination, 0) + b[..60];
    assert reports[1] == Header(destination, 1) + b[60..120];
    assert reports[2] == Header(destination, 2) + b[120..] + Zeros(52);
    return destination, Some(b);
  }

  lemma Joined(left: seq<byte>, right: seq<byte>)
    ensures (left + right)[..|left|] == left && (left + right)[|left|..] == right
    ensures forall i, j | 0 <= i <= j <= |left| :: (left + right)[i..j] == left[i..j]
  {
  }

  lemma FramingIsInjective(left: byte, leftBlock: seq<byte>, right: byte, rightBlock: seq<byte>)
    requires |leftBlock| == |rightBlock| == BLOCK_LENGTH
    requires Framed(left, leftBlock) == Framed(right, rightBlock)
    ensures left == right && leftBlock == rightBlock
  {
    var l, r := Framed(left, leftBlock), Framed(right, rightBlock);
    assert l[0][2] == left && r[0][2] == right;
    assert leftBlock == l[0][4..] + l[1][4..] + l[2][4..12];
    assert rightBlock == r[0][4..] + r[1][4..] + r[2][4..12];
  }

  // ------------------------------------------------------------------ click sequences

  const BUTTONS := ["mouse_left", "mouse_right", "mouse_middle", "mouse_back", "mouse_forward"]

  /** One or two complete clicks without delays. */
  datatype Sequence = Sequence(buttons: seq<string>, repeat: int, mode: byte)

  predicate ValidSequence(s: Sequence) {
    && s.mode <= 2 && 1 <= |s.buttons| <= 2 && 1 <= s.repeat <= 255
    && forall i | 0 <= i < |s.buttons| :: s.buttons[i] in BUTTONS
  }

  function IndexOf(button: string, buttons: seq<string>): (i: nat)
    requires button in buttons
    ensures i < |buttons| && buttons[i] == button && button !in buttons[..i]
  {
    if buttons[0] == button then 0 else 1 + IndexOf(button, buttons[1..])
  }

  function ButtonCode(button: string): byte
    requires button in BUTTONS
  {
    0xf1 + IndexOf(button, BUTTONS)
  }

  function ClickPairs(buttons: seq<string>): (pairs: seq<byte>)
    requires forall i | 0 <= i < |buttons| :: buttons[i] in BUTTONS
    ensures |pairs| == 4 * |buttons|
  {
    if buttons == [] then []
    else
      var code := ButtonCode(buttons[0]);
      [1, code, 0x81, code] + ClickPairs(buttons[1..])
  }

  function SequenceBlock(s: Sequence): (block: seq<byte>)
    requires ValidSequence(s)
    ensures |block| == BLOCK_LENGTH
  {
    Sealed(Layout(s.mode, s.repeat, ClickPairs(s.buttons)))
  }

  lemma ButtonsAreDistinct()
    ensures forall i, j | 0 <= i < j < 5 :: BUTTONS[i] != BUTTONS[j]
    ensures forall i | 0 <= i < 5 :: ButtonCode(BUTTONS[i]) == 0xf1 + i
  {
    assert BUTTONS[0][6] == 'l' && BUTTONS[1][6] == 'r' && BUTTONS[2][6] == 'm' && BUTTONS[3][6] == 'b'
      && BUTTONS[4][6] == 'f';
    forall i | 0 <= i < 5 ensures ButtonCode(BUTTONS[i]) == 0xf1 + i {
      var k := IndexOf(BUTTONS[i], BUTTONS);
      assert BUTTONS[k] == BUTTONS[i];
    }
  }

  /** The five buttons by name, the pairs of a click, and the limits of a sequence. */
  lemma ButtonsAre(button: string, rest: seq<string>)
    requires button in BUTTONS && forall i | 0 <= i < |rest| :: rest[i] in BUTTONS
    ensures ButtonCode(button)
              == if button == "mouse_left" then 0xf1 else if button == "mouse_right" then 0xf2
                 else if button == "mouse_middle" then 0xf3 else if button == "mouse_back" then 0xf4 else 0xf5
    ensures ButtonCode(button) == 0xf5 ==> button == "mouse_forward"
    ensures ClickPairs([]) == []
    ensures ClickPairs([button] + rest) == [1, ButtonCode(button), 0x81, ButtonCode(button)] + ClickPairs(rest)
  {
    ButtonsAreDistinct();
    assert ([button] + rest)[1..] == rest;
    var i := IndexOf(button, BUTTONS);
    assert BUTTONS[i] == button;
  }

  lemma SequencesAre(s: Sequence)
    ensures ValidSequence(s) <==>
              && s.mode < 3 && (|s.buttons| == 1 || |s.buttons| == 2) && 0 < s.repeat < 256
              && forall button | button in s.buttons ::
                   button in {"mouse_left", "mouse_right", "mouse_middle", "mouse_back", "mouse_forward"}
  {
    forall button
      ensures button in BUTTONS <==>
                button in {"mouse_left", "mouse_right", "mouse_middle", "mouse_back", "mouse_forward"}
    {
      if button in {"mouse_left", "mouse_right", "mouse_middle", "mouse_back", "mouse_forward"} {
        assert button == BUTTONS[0] || button == BUTTONS[1] || button == BUTTONS[2] || button == BUTTONS[3]
          || button == BUTTONS[4];
      }
    }
    assert forall i | 0 <= i < |s.buttons| :: s.buttons[i] in s.buttons;
  }

  method CodeOf(button: string) returns (code: byte)
    ensures code == if button in BUTTONS then ButtonCode(button) else 0
  {
    ButtonsAreDistinct();
    for j := 0 to 5
      invariant button !in BUTTONS[..j]
    {
      if button == BUTTONS[j] {
        return 0xf1 + j;
      }
    }
    return 0;
  }

  method EncodeSequenceBlock(s: Sequence) returns (block: Option<seq<byte>>)
    ensures block.Some? <==> ValidSequence(s)
    ensures block.Some? ==> block.value == SequenceBlock(s)
  {
    hide ClickPairs, Layout, Sealed, ButtonCode;
    if s.mode > 2 || |s.buttons| < 1 || |s.buttons| > 2 || s.repeat < 1 || s.repeat > 255 {
      return None;
    }
    var pairs: seq<byte> := [];
    ClickPairsEmpty();
    for i := 0 to |s.buttons|
      invariant forall j | 0 <= j < i :: s.buttons[j] in BUTTONS
      invariant pairs == ClickPairs(s.buttons[..i])
    {
      var code := CodeOf(s.buttons[i]);
      if code == 0 {
        ButtonCodeRange(s.buttons[i]);
        return None;
      }
      ClickPairsAppend(s.buttons[..i], s.buttons[i]);
      assert s.buttons[..i + 1] == s.buttons[..i] + [s.buttons[i]];
      pairs := pairs + [1, code, 0x81, code];
    }
    assert s.buttons[..|s.buttons|] == s.buttons;
    var b := FillBlock(s.mode, s.repeat, pairs);
    return Some(b);
  }

  lemma ButtonCodeRange(button: string)
    ensures button in BUTTONS ==> ButtonCode(button) >= 0xf1
  {
  }

  lemma ClickPairsEmpty()
    ensures ClickPairs([]) == []
  {
  }

  lemma {:induction false} ClickPairsAppend(buttons: seq<string>, button: string)
    requires button in BUTTONS && forall i | 0 <= i < |buttons| :: buttons[i] in BUTTONS
    ensures ClickPairs(buttons + [button]) == ClickPairs(buttons) + [1, ButtonCode(button), 0x81, ButtonCode(button)]
  {
    hide ButtonCode;
    if buttons == [] {
      assert buttons + [button] == [button];
      assert [button][1..] == [];
    } else {
      ClickPairsAppend(buttons[1..], button);
      assert (buttons + [button])[1..] == buttons[1..] + [button];
    }
  }

  lemma {:induction false} ClickPairsAt(buttons: seq<string>, i: nat)
    requires i < |buttons| && forall j | 0 <= j < |buttons| :: buttons[j] in BUTTONS
    ensures ClickPairs(buttons)[4 * i + 1] == ButtonCode(buttons[i])
  {
    hide ButtonCode;
    if i > 0 {
      ClickPairsAt(buttons[1..], i - 1);
    }
  }

  /** The code of the i-th click of a block is that of a button. */
  predicate GoodCode(b: seq<byte>, i: nat)
    requires |b| == BLOCK_LENGTH && i < 2
  {
    0xf1 <= b[27 + 4 * i] <= 0xf5
  }

  /** What a valid sequence looks like in its block. */
  lemma SequenceReads(s: Sequence)
    requires ValidSequence(s)
    ensures var b := SequenceBlock(s);
            && b[0] == s.mode && b[4] == s.repeat && b[25] == 2 * |s.buttons| && b == Sealed(b[..126])
            && forall i | 0 <= i < |s.buttons| :: GoodCode(b, i) && s.buttons[i] == BUTTONS[b[27 + 4 * i] - 0xf1]
  {
    hide ClickPairs, Layout;
    var pairs := ClickPairs(s.buttons);
    LayoutReads(s.mode, s.repeat, pairs);
    var b := SequenceBlock(s);
    forall i | 0 <= i < |s.buttons| ensures GoodCode(b, i) && s.buttons[i] == BUTTONS[b[27 + 4 * i] - 0xf1] {
      ClickPairsAt(s.buttons, i);
      assert BUTTONS[IndexOf(s.buttons[i], BUTTONS)] == s.buttons[i];
      assert b[PAIRS_OFFSET..PAIRS_OFFSET + |pairs|][4 * i + 1] == pairs[4 * i + 1];
    }
  }

  method ReadButtons(b: seq<byte>) returns (buttons: Option<seq<string>>)
    requires |b| == BLOCK_LENGTH && (b[25] == 2 || b[25] == 4)
    ensures buttons.Some? <==> forall i | 0 <= i < b[25] / 2 :: GoodCode(b, i)
    ensures buttons.Some? ==>
              && |buttons.value| == b[25] / 2
              && forall i | 0 <= i < |buttons.value| ::
                   GoodCode(b, i) && buttons.value[i] == BUTTONS[b[27 + 4 * i] - 0xf1]
  {
    var read: seq<string> := [];
    for i := 0 to b[25] / 2
      invariant |read| == i
      invariant forall j | 0 <= j < i :: GoodCode(b, j) && read[j] == BUTTONS[b[27 + 4 * j] - 0xf1]
    {
      var code := b[27 + 4 * i];
      if code < 0xf1 || code > 0xf5 {
        assert !GoodCode(b, i);
        return None;
      }
      read := read + [BUTTONS[code - 0xf1]];
    }
    return Some(read);
  }

  /** The strict decoder: it accepts exactly the blocks of sequences. */
  method DecodeSequenceBlock(b: seq<byte>) returns (sequence: Option<Sequence>)
    ensures sequence.Some? ==> ValidSequence(sequence.value) && SequenceBlock(sequence.value) == b
    ensures forall s | ValidSequence(s) && SequenceBlock(s) == b :: sequence == Some(s)
  {
    hide SequenceBlock, Sealed;
    forall s | ValidSequence(s) && SequenceBlock(s) == b
      ensures b[25] == 2 * |s.buttons| && s.mode == b[0] && s.repeat == b[4] && b == Sealed(b[..126])
      ensures forall i | 0 <= i < |s.buttons| :: GoodCode(b, i) && s.buttons[i] == BUTTONS[b[27 + 4 * i] - 0xf1]
    {
      SequenceReads(s);
    }
    if |b| != BLOCK_LENGTH || b != Sealed(b[..126]) { // the checksum
      return None;
    }
    if b[25] != 2 && b[25] != 4 {
      return None;
    }
    var buttons := ReadButtons(b);
    if buttons.None? {
      return None;
    }
    var s := Sequence(buttons.value, b[4], b[0]);
    var expected := EncodeSequenceBlock(s);
    forall t | ValidSequence(t) && SequenceBlock(t) == b ensures t == s {
      assert t.buttons == s.buttons;
    }
    if expected.None? || expected.value != b {
      return None;
    }
    return Some(s);
  }

  // ------------------------------------------------------------------ uploads

  datatype SequenceUpload = SequenceUpload(destination: byte, sequence: Sequence)

  predicate ValidUpload(upload: SequenceUpload) {
    ValidDestination(upload.destination) && ValidSequence(upload.sequence)
  }

  function UploadReports(upload: SequenceUpload): seq<seq<byte>>
    requires ValidUpload(upload)
  {
    Framed(upload.destination, SequenceBlock(upload.sequence))
  }

  method EncodeSequenceUpload(upload: SequenceUpload) returns (reports: Option<seq<seq<byte>>>)
    ensures reports.Some? <==> ValidUpload(upload)
    ensures reports.Some? ==> reports.value == UploadReports(upload)
  {
    if !ValidDestination(upload.destination) {
      return None;
    }
    var block := EncodeSequenceBlock(upload.sequence);
    if block.None? {
      return None;
    }
    var framed := EncodeFraming(upload.destination, block.value);
    return Some(framed);
  }

  /** Decoding inverts encoding, and whatever is accepted is exactly the encoding of the result. */
  method DecodeSequenceUpload(reports: seq<seq<byte>>) returns (upload: Option<SequenceUpload>)
    ensures upload.Some? ==> ValidUpload(upload.value) && UploadReports(upload.value) == reports
    ensures forall u | ValidUpload(u) && UploadReports(u) == reports :: upload == Some(u)
  {
    hide SequenceBlock, Framed;
    var destination, block := DecodeFraming(reports);
    if block.None? {
      return None;
    }
    forall u | ValidUpload(u) && UploadReports(u) == reports
      ensures u.destination == destination && SequenceBlock(u.sequence) == block.value
    {
      FramingIsInjective(u.destination, SequenceBlock(u.sequence), destination, block.value);
    }
    var sequence := DecodeSequenceBlock(block.value);
    if sequence.None? {
      return None;
    }
    return Some(SequenceUpload(destination, sequence.value));
  }

  lemma UploadIsInjective(left: SequenceUpload, right: SequenceUpload)
    requires ValidUpload(left) && ValidUpload(right) && UploadReports(left) == UploadReports(right)
    ensures left == right
  {
    FramingIsInjective(left.destination, SequenceBlock(left.sequence),
                       right.destination, SequenceBlock(right.sequence));
    SequenceReads(left.sequence);
    SequenceReads(right.sequence);
    assert left.sequence.buttons == right.sequence.buttons;
  }
}
