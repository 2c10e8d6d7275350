/** Strings cut at separators, decimal numerals, and the order of strings by their characters. */
module Text {

  function Split(s: string, separator: char): (parts: seq<string>)
    ensures |parts| >= 1
  {
    if s == "" then [""]
    else if s[0] == separator then [""] + Split(s[1..], separator)
    else
      var rest := Split(s[1..], separator);
      [[s[0]] + rest[0]] + rest[1..]
  }

  function Join(parts: seq<string>, separator: char): string {
    if parts == [] then ""
    else if |parts| == 1 then parts[0]
    else parts[0] + [separator] + Join(parts[1..], separator)
  }

  /** No part contains the separator. */
  ghost predicate Separable(parts: seq<string>, separator: char) {
    forall part | part in parts :: separator !in part
  }

  lemma {:induction false} JoinSplit(s: string, separator: char)
    ensures Join(Split(s, separator), separator) == s
    ensures Separable(Split(s, separator), separator)
  {
    if s != "" {
      JoinSplit(s[1..], separator);
      var rest := Split(s[1..], separator);
      assert s == [s[0]] + s[1..];
      if s[0] != separator {
        assert Split(s, separator)[1..] == rest[1..];
        if |rest| > 1 {
          assert [s[0]] + rest[0] + [separator] + Join(rest[1..], separator)
              == [s[0]] + (rest[0] + [separator] + Join(rest[1..], separator));
        }
      } else {
        assert Split(s, separator)[1..] == rest;
      }
    }
  }

  lemma {:induction false} SplitPrefix(part: string, separator: char, rest: string)
    requires separator !in part
    ensures Split(part + [separator] + rest, separator) == [part] + Split(rest, separator)
  {
    if part == "" {
      assert part + [separator] + rest == [separator] + rest;
    } else {
      SplitPrefix(part[1..], separator, rest);
      assert (part + [separator] + rest)[1..] == part[1..] + [separator] + rest;
      assert [part[0]] + part[1..] == part;
    }
  }

  lemma {:induction false} SplitWhole(part: string, separator: char)
    requires separator !in part
    ensures Split(part, separator) == [part]
  {
    if part != "" {
      SplitWhole(part[1..], separator);
      assert [part[0]] + part[1..] == part;
    }
  }

  lemma {:induction false} SplitJoin(parts: seq<string>, separator: char)
    requires parts != [] && Separable(parts, separator)
    ensures Split(Join(parts, separator), separator) == parts
  {
    if |parts| == 1 {
      SplitWhole(parts[0], separator);
    } else {
      SplitJoin(parts[1..], separator);
      SplitPrefix(parts[0], separator, Join(parts[1..], separator));
    }
  }

  lemma {:induction false} JoinAvoids(parts: seq<string>, separator: char, other: char)
    requires other != separator && Separable(parts, other)
    ensures other !in Join(parts, separator)
  {
    if |parts| > 1 {
      JoinAvoids(parts[1..], separator, other);
    }
  }

  lemma {:induction false} JoinAppend(parts: seq<string>, separator: char, last: string)
    requires parts != []
    ensures Join(parts + [last], separator) == Join(parts, separator) + [separator] + last
  {
    if |parts| == 1 {
      assert (parts + [last])[1..] == [last];
    } else {
      JoinAppend(parts[1..], separator, last);
      assert (parts + [last])[1..] == parts[1..] + [last];
    }
  }

  datatype Option<T> = None | Some(value: T)

  /** The text before the first separator and, when there is one, the text after it. */
  function Cut(s: string, separator: char): (string, Option<string>) {
    if s == "" then ("", None)
    else if s[0] == separator then ("", Some(s[1..]))
    else
      var (before, after) := Cut(s[1..], separator);
      ([s[0]] + before, after)
  }

  lemma {:induction false} CutAt(before: string, separator: char, after: string)
    requires separator !in before
    ensures Cut(before + [separator] + after, separator) == (before, Some(after))
    ensures Cut(before, separator) == (before, None)
  {
    if before != "" {
      CutAt(before[1..], separator, after);
      assert (before + [separator] + after)[1..] == before[1..] + [separator] + after;
      assert [before[0]] + before[1..] == before;
    } else {
      assert before + [separator] + after == [separator] + after;
    }
  }

  lemma {:induction false} CutJoins(s: string, separator: char)
    ensures var (before, after) := Cut(s, separator);
            && separator !in before
            && s == before + (if after.Some? then [separator] + after.value else "")
  {
    if s != "" && s[0] != separator {
      CutJoins(s[1..], separator);
      assert s == [s[0]] + s[1..];
    }
  }

  // ------------------------------------------------------------------ white space

  predicate IsSpace(c: char) {
    c == ' ' || '\t' <= c <= '\r' || c == '\U{85}' || c == '\U{A0}' || c == '\U{1680}'
    || '\U{2000}' <= c <= '\U{200A}' || c == '\U{2028}' || c == '\U{2029}' || c == '\U{202F}'
    || c == '\U{205F}' || c == '\U{3000}'
  }

  /** The 25 characters that Unicode calls white space, by number. */
  lemma SpacesAre(c: char)
    ensures IsSpace(c) <==>
              || 9 <= c as int <= 13 || 8192 <= c as int <= 8202
              || c as int in {32, 133, 160, 5760, 8232, 8233, 8239, 8287, 12288}
  {
  }

  predicate Blank(s: string) {
    forall i | 0 <= i < |s| :: IsSpace(s[i])
  }

  lemma HexDigit(c: char)
    ensures ('0' <= c <= '9' || 'a' <= c <= 'f') <==> c in "0123456789abcdef"
  {
    var digits := "0123456789abcdef";
    if '0' <= c <= '9' {
      assert digits[c as int - '0' as int] == c;
    } else if 'a' <= c <= 'f' {
      assert digits[c as int - 'a' as int + 10] == c;
    }
  }

  // ------------------------------------------------------------------ decimal numerals

  predicate IsDigit(c: char) {
    '0' <= c <= '9'
  }

  predicate IsDigits(s: string) {
    s != "" && forall i | 0 <= i < |s| :: IsDigit(s[i])
  }

  predicate IsNumeral(s: string) {
    IsDigits(s) && (|s| == 1 || s[0] != '0')
  }

  function Value(s: string): nat
    requires forall i | 0 <= i < |s| :: IsDigit(s[i])
  {
    if s == "" then 0
    else
      assert IsDigit(s[|s| - 1]);
      10 * Value(s[..|s| - 1]) + (s[|s| - 1] as int - '0' as int)
  }

  function Numeral(n: nat): (s: string)
    ensures IsNumeral(s) && (n > 0 ==> s[0] != '0')
  {
    var last := [('0' as int + n % 10) as char];
    if n < 10 then last else Numeral(n / 10) + last
  }

  /** Decimal places count from the right. */
  lemma DecimalPlaces(s: string, digit: char)
    requires forall i | 0 <= i < |s| :: '0' <= s[i] <= '9'
    requires '0' <= digit <= '9'
    ensures Value("") == 0 && Value(s + [digit]) == 10 * Value(s) + (digit as int - '0' as int)
  {
    assert (s + [digit])[..|s|] == s;
  }

  lemma {:induction false} ValueNumeral(n: nat)
    ensures Value(Numeral(n)) == n
  {
    var s := Numeral(n);
    if n >= 10 {
      ValueNumeral(n / 10);
      assert s[..|s| - 1] == Numeral(n / 10);
    } else {
      assert s[..|s| - 1] == "";
    }
  }

  lemma {:induction false} ValuePositive(s: string)
    requires IsDigits(s) && s[0] != '0'
    ensures Value(s) > 0
  {
    if |s| > 1 {
      ValuePositive(s[..|s| - 1]);
    }
  }

  lemma {:induction false} NumeralValue(s: string)
    requires IsNumeral(s)
    ensures Numeral(Value(s)) == s
  {
    var front, last := s[..|s| - 1], s[|s| - 1];
    assert s == front + [last];
    if |s| == 1 {
      assert Value(front) == 0;
    } else {
      ValuePositive(front);
      NumeralValue(front);
      assert Value(s) / 10 == Value(front);
    }
  }

  // ------------------------------------------------------------------ orders

  function Sign(left: int, right: int): int {
    if left < right then -1 else if left > right then 1 else 0
  }

  /** The order of strings by their first differing character, a proper prefix coming first. */
  function TextOrder(left: string, right: string): (order: int)
    ensures -1 <= order <= 1
  {
    if left == "" || right == "" then Sign(|left|, |right|)
    else if left[0] != right[0] then Sign(left[0] as int, right[0] as int)
    else TextOrder(left[1..], right[1..])
  }

  lemma {:induction false} TextOrderLaws(a: string, b: string, c: string)
    ensures TextOrder(a, b) == -TextOrder(b, a)
    ensures TextOrder(a, b) == 0 <==> a == b
    ensures TextOrder(a, b) <= 0 && TextOrder(b, c) <= 0 ==> TextOrder(a, c) <= 0
    decreases |a| + |b| + |c|
  {
    if a != "" && b != "" {
      TextOrderLaws(a[1..], b[1..], if c == "" then "" else c[1..]);
      assert a == [a[0]] + a[1..] && b == [b[0]] + b[1..];
    }
  }

  /** The first difference decides: a smaller character, or the end of the text, comes first. */
  lemma {:induction false} TextDecides(left: string, right: string, k: nat)
    requires k <= |left| && k <= |right| && left[..k] == right[..k]
    requires k < |right| && (k == |left| || left[k] < right[k])
    ensures TextOrder(left, right) < 0 < TextOrder(right, left)
  {
    if k > 0 {
      assert left[0] == left[..k][0] == right[..k][0] == right[0];
      assert left[1..][..k - 1] == left[..k][1..] && right[1..][..k - 1] == right[..k][1..];
      TextDecides(left[1..], right[1..], k - 1);
    }
  }

  lemma {:induction false} TextOrderLast(left: string, right: string)
    requires |left| == |right| > 0
    ensures var front := TextOrder(left[..|left| - 1], right[..|right| - 1]);
            TextOrder(left, right)
              == if front != 0 then front else Sign(left[|left| - 1] as int, right[|right| - 1] as int)
  {
    if |left| == 1 {
      assert TextOrder(left[1..], right[1..]) == 0;
    } else {
      TextOrderLast(left[1..], right[1..]);
      assert left[1..][..|left| - 2] == left[..|left| - 1][1..];
      assert right[1..][..|right| - 2] == right[..|right| - 1][1..];
    }
  }

  /** Digits of the same number are ordered as the numbers they stand for. */
  lemma {:induction false} SameLengthOrder(left: string, right: string)
    requires |left| == |right|
    requires forall i | 0 <= i < |left| :: IsDigit(left[i]) && IsDigit(right[i])
    ensures TextOrder(left, right) == Sign(Value(left), Value(right))
  {
    if left != "" {
      TextOrderLast(left, right);
      SameLengthOrder(left[..|left| - 1], right[..|right| - 1]);
    }
  }

  lemma {:induction false} ShorterIsSmaller(left: string, right: string)
    requires IsDigits(left) && IsNumeral(right) && |left| < |right|
    ensures Value(left) < Value(right)
  {
    var front := right[..|right| - 1];
    if |left| == 1 {
      assert left[..0] == "";
      ValuePositive(front);
    } else {
      ShorterIsSmaller(left[..|left| - 1], front);
    }
  }
}
