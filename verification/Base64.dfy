/** The standard base64 encoding with padding (section 4 of RFC 4648) and its strict decoder, which
    refuses set trailing bits but, like the library's, skips line breaks. */
module Base64 {
  import opened Bytes
  import opened Text

  type sextet = n: int | 0 <= n < 64

  function Digit(n: sextet): char {
    if n < 26 then ('A' as int + n) as char
    else if n < 52 then ('a' as int + n - 26) as char
    else if n < 62 then ('0' as int + n - 52) as char
    else if n == 62 then '+'
    else '/'
  }

  predicate IsBase64Digit(c: char) {
    'A' <= c <= 'Z' || 'a' <= c <= 'z' || '0' <= c <= '9' || c == '+' || c == '/'
  }

  function DigitValue(c: char): sextet
    requires IsBase64Digit(c)
  {
    if 'A' <= c <= 'Z' then c as int - 'A' as int
    else if 'a' <= c <= 'z' then c as int - 'a' as int + 26
    else if '0' <= c <= '9' then c as int - '0' as int + 52
    else if c == '+' then 62
    else 63
  }

  /** The alphabet: the ends of its three runs and the last two digits; inside a run the next number has
      the next character. */
  lemma AlphabetIs(n: sextet)
    ensures Digit(0) == 'A' && Digit(25) == 'Z' && Digit(26) == 'a' && Digit(51) == 'z'
    ensures Digit(52) == '0' && Digit(61) == '9' && Digit(62) == '+' && Digit(63) == '/'
    ensures n !in {25, 51, 61, 62, 63} ==> Digit(n + 1) as int == Digit(n) as int + 1
  {
  }

  lemma DigitRoundTrip(n: sextet)
    ensures IsBase64Digit(Digit(n)) && DigitValue(Digit(n)) == n
  {
  }

  lemma DigitValueRoundTrip(c: char)
    requires IsBase64Digit(c)
    ensures Digit(DigitValue(c)) == c
  {
  }

  /** Four digits for three bytes. */
  function Quantum(a: byte, b: byte, c: byte): (text: string)
    ensures |text| == 4
  {
    [Digit(a / 4), Digit(a % 4 * 16 + b / 16), Digit(b % 16 * 4 + c / 64), Digit(c % 64)]
  }

  /** The last one or two bytes, padded. */
  function LastQuantum(bytes: seq<byte>): (text: string)
    requires 1 <= |bytes| <= 2
    ensures |text| == 4
  {
    if |bytes| == 1 then Quantum(bytes[0], 0, 0)[..2] + "=="
    else Quantum(bytes[0], bytes[1], 0)[..3] + "="
  }

  function Encode(bytes: seq<byte>): (text: string)
    ensures |text| == (|bytes| + 2) / 3 * 4
  {
    if bytes == [] then ""
    else if |bytes| <= 2 then LastQuantum(bytes)
    else Quantum(bytes[0], bytes[1], bytes[2]) + Encode(bytes[3..])
  }

  /** Three bytes are one number in base 256, whose four digits in base 64 are written, the most
      significant one first; the last one or two bytes are padded to four characters. */
  lemma EncodingIs(a: byte, b: byte, c: byte, rest: seq<byte>) returns (p: sextet, q: sextet, r: sextet, s: sextet)
    ensures 262144 * p as int + 4096 * q as int + 64 * r as int + s as int
              == 65536 * a as int + 256 * b as int + c as int
    ensures Encode([a, b, c] + rest) == [Digit(p), Digit(q), Digit(r), Digit(s)] + Encode(rest)
    ensures Encode([a, b]) == Encode([a, b, 0])[..3] + "="
    ensures Encode([a]) == Encode([a, 0, 0])[..2] + "=="
    ensures Encode([]) == ""
  {
    assert ([a, b, c] + rest)[3..] == rest;
    assert [a, b, 0][3..] == [] && [a, 0, 0][3..] == [];
    p, q, r, s := a / 4, a % 4 * 16 + b / 16, b % 16 * 4 + c / 64, c % 64;
    hide Digit;
  }

  /** The three bytes of four digits. */
  function DecodeQuantum(text: string): (bytes: seq<byte>)
    requires |text| == 4 && forall i | 0 <= i < 4 :: IsBase64Digit(text[i])
    ensures |bytes| == 3
  {
    var p, q, r, s := DigitValue(text[0]), DigitValue(text[1]), DigitValue(text[2]), DigitValue(text[3]);
    [p * 4 + q / 16, q % 16 * 16 + r / 4, r % 4 * 64 + s]
  }

  /** The bits that are left over must not be set. */
  function DecodeLast(text: string): Option<seq<byte>>
    requires |text| == 4
  {
    if !IsBase64Digit(text[0]) || !IsBase64Digit(text[1]) then None
    else if text[2..] == "==" then
      if DigitValue(text[1]) % 16 != 0 then None else Some(DecodeQuantum(text[..2] + "AA")[..1])
    else if text[3] == '=' && IsBase64Digit(text[2]) then
      if DigitValue(text[2]) % 4 != 0 then None else Some(DecodeQuantum(text[..3] + "A")[..2])
    else if IsBase64Digit(text[2]) && IsBase64Digit(text[3]) then Some(DecodeQuantum(text))
    else None
  }

  function DecodeDigits(text: string): Option<seq<byte>> {
    if text == "" then Some([])
    else if |text| < 4 then None
    else if |text| == 4 then DecodeLast(text)
    else if forall i | 0 <= i < 4 :: IsBase64Digit(text[i]) then
      match DecodeDigits(text[4..])
      case None => None
      case Some(rest) => Some(DecodeQuantum(text[..4]) + rest)
    else None
  }

  function WithoutBreaks(text: string): string {
    if text == "" then ""
    else (if text[0] == '\r' || text[0] == '\n' then "" else [text[0]]) + WithoutBreaks(text[1..])
  }

  function Decode(text: string): Option<seq<byte>> {
    DecodeDigits(WithoutBreaks(text))
  }

  predicate IsCode(c: char) {
    IsBase64Digit(c) || c == '='
  }

  /** Splitting three bytes into four groups of six bits loses nothing. */
  lemma Bits(a: byte, b: byte, c: byte)
    ensures a / 4 * 4 + (a % 4 * 16 + b / 16) / 16 == a
    ensures (a % 4 * 16 + b / 16) % 16 * 16 + (b % 16 * 4 + c / 64) / 4 == b
    ensures (b % 16 * 4 + c / 64) % 4 * 64 + c % 64 == c
  {
    assert (a % 4 * 16 + b / 16) / 16 == a % 4 && (a % 4 * 16 + b / 16) % 16 == b / 16;
    assert (b % 16 * 4 + c / 64) / 4 == b % 16 && (b % 16 * 4 + c / 64) % 4 == c / 64;
  }

  /** And the other way round. */
  lemma BitsBack(p: sextet, q: sextet, r: sextet, s: sextet)
    ensures (p * 4 + q / 16) / 4 == p
    ensures (p * 4 + q / 16) % 4 * 16 + (q % 16 * 16 + r / 4) / 16 == q
    ensures (q % 16 * 16 + r / 4) % 16 * 4 + (r % 4 * 64 + s) / 64 == r
    ensures (r % 4 * 64 + s) % 64 == s
  {
    assert (p * 4 + q / 16) / 4 == p && (p * 4 + q / 16) % 4 == q / 16;
    assert (q % 16 * 16 + r / 4) / 16 == q % 16 && (q % 16 * 16 + r / 4) % 16 == r / 4;
    assert (r % 4 * 64 + s) / 64 == r % 4 && (r % 4 * 64 + s) % 64 == s;
  }

  lemma QuantumRoundTrip(a: byte, b: byte, c: byte)
    ensures forall i | 0 <= i < 4 :: IsBase64Digit(Quantum(a, b, c)[i])
    ensures DecodeQuantum(Quantum(a, b, c)) == [a, b, c]
  {
    hide Digit, DigitValue, IsBase64Digit;
    Bits(a, b, c);
    DigitRoundTrip(a / 4);
    DigitRoundTrip(a % 4 * 16 + b / 16);
    DigitRoundTrip(b % 16 * 4 + c / 64);
    DigitRoundTrip(c % 64);
  }

  lemma OneByteRoundTrip(a: byte)
    ensures DecodeLast(LastQuantum([a])) == Some([a])
    ensures forall i | 0 <= i < 4 :: IsCode(LastQuantum([a])[i])
  {
    hide Digit, DigitValue, IsBase64Digit, DecodeQuantum;
    var text := LastQuantum([a]);
    QuantumRoundTrip(a, 0, 0);
    QuantumDigits(a, 0, 0);
    assert Quantum(a, 0, 0)[..2] + "AA" == text[..2] + "AA" == Quantum(a, 0, 0);
    assert DecodeQuantum(text[..2] + "AA")[..1] == [a];
    assert text[2..] == "==" && text[0] == Quantum(a, 0, 0)[0] && text[1] == Quantum(a, 0, 0)[1];
  }

  lemma TwoBytesRoundTrip(a: byte, b: byte)
    ensures DecodeLast(LastQuantum([a, b])) == Some([a, b])
    ensures forall i | 0 <= i < 4 :: IsCode(LastQuantum([a, b])[i])
  {
    hide Digit, DigitValue, IsBase64Digit, DecodeQuantum;
    var text := LastQuantum([a, b]);
    QuantumRoundTrip(a, b, 0);
    QuantumDigits(a, b, 0);
    assert text[..3] + "A" == Quantum(a, b, 0);
    assert text[0] == Quantum(a, b, 0)[0] && text[1] == Quantum(a, b, 0)[1] && text[2] == Quantum(a, b, 0)[2];
    assert text[2..][0] == text[2] != '=';
    assert DecodeQuantum(text[..3] + "A")[..2] == [a, b];
  }

  lemma QuantumDigits(a: byte, b: byte, c: byte)
    ensures DigitValue(Quantum(a, b, c)[1]) == a % 4 * 16 + b / 16
    ensures DigitValue(Quantum(a, b, c)[2]) == b % 16 * 4 + c / 64
    ensures c == 0 ==> Quantum(a, b, c)[3] == 'A'
    ensures b == 0 && c == 0 ==> Quantum(a, b, c)[2] == 'A'
    ensures !IsBase64Digit('=') && IsBase64Digit('A')
  {
    DigitRoundTrip(a % 4 * 16 + b / 16);
    DigitRoundTrip(b % 16 * 4 + c / 64);
  }

  lemma {:induction false} DigitsRoundTrip(bytes: seq<byte>)
    ensures DecodeDigits(Encode(bytes)) == Some(bytes)
    ensures forall i | 0 <= i < |Encode(bytes)| :: IsCode(Encode(bytes)[i])
  {
    hide Quantum, DecodeQuantum, LastQuantum, DecodeLast;
    if |bytes| == 1 {
      OneByteRoundTrip(bytes[0]);
      assert bytes == [bytes[0]];
    } else if |bytes| == 2 {
      TwoBytesRoundTrip(bytes[0], bytes[1]);
      assert bytes == [bytes[0], bytes[1]];
    } else if |bytes| > 2 {
      DigitsRoundTrip(bytes[3..]);
      var head := Quantum(bytes[0], bytes[1], bytes[2]);
      QuantumRoundTrip(bytes[0], bytes[1], bytes[2]);
      assert Encode(bytes)[..4] == head && Encode(bytes)[4..] == Encode(bytes[3..]);
      assert bytes == [bytes[0], bytes[1], bytes[2]] + bytes[3..];
      if |bytes| == 3 {
        assert bytes == [bytes[0], bytes[1], bytes[2]];
        assert bytes[3..] == [] && Encode(bytes[3..]) == "" && Encode(bytes) == head;
        WholeQuantum(head);
      }
    }
  }

  lemma WholeQuantum(text: string)
    requires |text| == 4 && forall i | 0 <= i < 4 :: IsBase64Digit(text[i])
    ensures DecodeLast(text) == Some(DecodeQuantum(text))
  {
    assert text[2] != '=' && text[3] != '=';
  }

  lemma {:induction false} CodeHasNoBreaks(text: string)
    requires forall i | 0 <= i < |text| :: text[i] != '\r' && text[i] != '\n'
    ensures WithoutBreaks(text) == text
  {
    if text != "" {
      CodeHasNoBreaks(text[1..]);
    }
  }

  /** Decoding gives back what was encoded. */
  lemma DecodeEncode(bytes: seq<byte>)
    ensures Decode(Encode(bytes)) == Some(bytes)
    ensures forall i | 0 <= i < |Encode(bytes)| :: IsCode(Encode(bytes)[i])
  {
    DigitsRoundTrip(bytes);
    CodeHasNoBreaks(Encode(bytes));
  }

  lemma QuantumBack(text: string)
    requires |text| == 4 && forall i | 0 <= i < 4 :: IsBase64Digit(text[i])
    ensures var bytes := DecodeQuantum(text); Quantum(bytes[0], bytes[1], bytes[2]) == text
  {
    hide Digit, DigitValue, IsBase64Digit;
    BitsBack(DigitValue(text[0]), DigitValue(text[1]), DigitValue(text[2]), DigitValue(text[3]));
    DigitValueRoundTrip(text[0]);
    DigitValueRoundTrip(text[1]);
    DigitValueRoundTrip(text[2]);
    DigitValueRoundTrip(text[3]);
  }

  lemma LastBack(text: string)
    requires |text| == 4 && DecodeLast(text).Some?
    ensures Encode(DecodeLast(text).value) == text
  {
    hide Digit, DigitValue, IsBase64Digit, DecodeQuantum;
    QuantumDigits(0, 0, 0);
    if text[2..] == "==" {
      QuantumBack(text[..2] + "AA");
      assert text == text[..2] + "==";
      Unused(text[..2] + "AA", 1);
    } else if text[3] == '=' {
      QuantumBack(text[..3] + "A");
      assert text == text[..3] + "=";
      Unused(text[..3] + "A", 2);
    } else {
      QuantumBack(text);
      var bytes := DecodeLast(text).value;
      assert bytes[3..] == [] && Encode([]) == "";
    }
  }

  /** Bits that are not set do not end up in the bytes that are dropped. */
  lemma Unused(text: string, kept: nat)
    requires |text| == 4 && 1 <= kept <= 2 && forall i | 0 <= i < 4 :: IsBase64Digit(text[i])
    requires text[3] == 'A'
    requires if kept == 1 then text[2] == 'A' && DigitValue(text[1]) % 16 == 0 else DigitValue(text[2]) % 4 == 0
    ensures DecodeQuantum(text)[2] == 0 && (kept == 1 ==> DecodeQuantum(text)[1] == 0)
  {
    assert DigitValue('A') == 0;
  }

  /** Every text the strict decoder accepts is the encoding of its result, but for line breaks. */
  lemma {:induction false} EncodeDecode(text: string)
    requires DecodeDigits(text).Some?
    ensures Encode(DecodeDigits(text).value) == text
  {
    hide Quantum, DecodeQuantum, LastQuantum, DecodeLast;
    if |text| == 4 {
      LastBack(text);
    } else if |text| > 4 {
      EncodeDecode(text[4..]);
      QuantumBack(text[..4]);
      var bytes := DecodeDigits(text).value;
      assert bytes[3..] == DecodeDigits(text[4..]).value;
      assert text == text[..4] + text[4..];
    }
  }

  /** So re-encoding finds exactly the texts with line breaks among those that decode. */
  lemma CanonicalIff(text: string)
    requires Decode(text).Some?
    ensures Encode(Decode(text).value) == text <==> forall i | 0 <= i < |text| :: text[i] != '\r' && text[i] != '\n'
  {
    EncodeDecode(WithoutBreaks(text));
    if Encode(Decode(text).value) == text {
      DigitsRoundTrip(Decode(text).value);
    } else if forall i | 0 <= i < |text| :: text[i] != '\r' && text[i] != '\n' {
      CodeHasNoBreaks(text);
    }
  }
}
