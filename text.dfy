/**
 * The string and number primitives of the JavaScript runtime that the helpers
 * rely on: hexadecimal and decimal digits, `Number.prototype.toString`,
 * `parseInt(s, 16)`, the `ToInt32` conversion behind the bitwise operators,
 * `String.prototype.substring`, `replace` with a one-character pattern,
 * `split` with a one-character separator and `Array.prototype.join`.
 */
module Text {
  import opened Wrappers

  // ---------------------------------------------------------------- hexadecimal

  predicate IsHexDigit(c: char) {
    '0' <= c <= '9' || 'a' <= c <= 'f' || 'A' <= c <= 'F'
  }

  /** A digit as `toString(16)` writes it: lower case. */
  predicate IsLowerHexDigit(c: char) {
    '0' <= c <= '9' || 'a' <= c <= 'f'
  }

  predicate AllHex(s: string) {
    forall i :: 0 <= i < |s| ==> IsHexDigit(s[i])
  }

  predicate AllLowerHex(s: string) {
    forall i :: 0 <= i < |s| ==> IsLowerHexDigit(s[i])
  }

  function HexDigitValue(c: char): (v: nat)
    requires IsHexDigit(c)
    ensures v < 16
    ensures '0' <= c <= '9' ==> v == c as int - '0' as int
    ensures 'a' <= c <= 'f' ==> v == c as int - 'a' as int + 10
    ensures 'A' <= c <= 'F' ==> v == c as int - 'A' as int + 10
  {
    if '0' <= c <= '9' then c as int - '0' as int
    else if 'a' <= c <= 'f' then c as int - 'a' as int + 10
    else c as int - 'A' as int + 10
  }

  function LowerHexDigit(d: nat): (c: char)
    requires d < 16
    ensures IsLowerHexDigit(c) && IsHexDigit(c) && HexDigitValue(c) == d
  {
    if d < 10 then ('0' as int + d) as char else ('a' as int + d - 10) as char
  }

  function UpperHexDigit(d: nat): (c: char)
    requires d < 16
    ensures IsHexDigit(c) && HexDigitValue(c) == d
    ensures '0' <= c <= '9' || 'A' <= c <= 'F'
  {
    if d < 10 then ('0' as int + d) as char else ('A' as int + d - 10) as char
  }

  function Pow16(n: nat): (p: nat)
    ensures p >= 1
  {
    if n == 0 then 1 else 16 * Pow16(n - 1)
  }

  /** The base-16 value of a string of hex digits, most significant first. */
  function HexValue(s: string): (v: nat)
    requires AllHex(s)
    ensures v < Pow16(|s|)
  {
    if s == [] then 0 else HexValue(s[..|s| - 1]) * 16 + HexDigitValue(s[|s| - 1])
  }

  /** The value of a two-digit string. */
  lemma HexValueTwo(a: char, b: char)
    requires IsHexDigit(a) && IsHexDigit(b)
    ensures AllHex([a, b]) && HexValue([a, b]) == HexDigitValue(a) * 16 + HexDigitValue(b)
  {
    assert [a, b][..1] == [a];
    assert [a][..0] == [];
  }

  /** The value of a concatenation: the digits of `a` are shifted past those of `b`. */
  lemma {:induction false} HexValueAppend(a: string, b: string)
    requires AllHex(a) && AllHex(b)
    ensures AllHex(a + b)
    ensures HexValue(a + b) == HexValue(a) * Pow16(|b|) + HexValue(b)
  {
    if b != [] {
      var b' := b[..|b| - 1];
      assert (a + b)[..|a + b| - 1] == a + b';
      HexValueAppend(a, b');
      var d := HexDigitValue(b[|b| - 1]);
      assert HexValue(a + b) == HexValue(a + b') * 16 + d;
      assert HexValue(b) == HexValue(b') * 16 + d;
      assert Pow16(|b|) == 16 * Pow16(|b'|);
      ShiftDigit(HexValue(a), Pow16(|b'|), HexValue(b'), d);
    } else {
      assert a + b == a;
    }
  }

  lemma ShiftDigit(x: int, p: int, y: int, d: int)
    ensures (x * p + y) * 16 + d == x * (16 * p) + (y * 16 + d)
  {
  }

  lemma {:induction false} HexPrefixLengthOf(digits: string, rest: string)
    requires AllHex(digits)
    requires rest == [] || !IsHexDigit(rest[0])
    ensures HexPrefixLength(digits + rest) == |digits|
  {
    if digits != [] {
      assert (digits + rest)[1..] == digits[1..] + rest;
      HexPrefixLengthOf(digits[1..], rest);
    } else {
      assert digits + rest == rest;
    }
  }

  /** `x` written with exactly `width` lower-case hex digits (its low digits). */
  function HexFixed(x: nat, width: nat): (s: string)
    ensures |s| == width && AllLowerHex(s) && AllHex(s)
  {
    if width == 0 then [] else HexFixed(x / 16, width - 1) + [LowerHexDigit(x % 16)]
  }

  lemma {:induction false} HexFixedValue(x: nat, width: nat)
    requires x < Pow16(width)
    ensures HexValue(HexFixed(x, width)) == x
  {
    if width > 0 {
      HexFixedValue(x / 16, width - 1);
      var s := HexFixed(x, width);
      assert s[..|s| - 1] == HexFixed(x / 16, width - 1);
    }
  }

  /** `Number.prototype.toString(16)` for a non-negative integer. */
  function ToHexString(n: nat): (s: string)
    ensures |s| >= 1 && AllLowerHex(s)
  {
    if n < 16 then [LowerHexDigit(n)] else ToHexString(n / 16) + [LowerHexDigit(n % 16)]
  }

  /** A number in [16^w, 2 * 16^w) prints as "1" followed by w digits of its remainder. */
  lemma {:induction false} ToHexStringLeadingOne(x: nat, width: nat)
    requires x < Pow16(width)
    ensures ToHexString(Pow16(width) + x) == "1" + HexFixed(x, width)
  {
    if width > 0 {
      var n := Pow16(width) + x;
      var p := Pow16(width - 1);
      assert n == 16 * (p + x / 16) + x % 16;
      assert n / 16 == p + x / 16 && n % 16 == x % 16;
      ToHexStringLeadingOne(x / 16, width - 1);
    }
  }

  // ---------------------------------------------------------------- decimal

  predicate IsDecimalDigit(c: char) {
    '0' <= c <= '9'
  }

  predicate AllDecimal(s: string) {
    forall i :: 0 <= i < |s| ==> IsDecimalDigit(s[i])
  }

  function DecimalDigit(d: nat): (c: char)
    requires d < 10
    ensures IsDecimalDigit(c) && c as int - '0' as int == d
  {
    ('0' as int + d) as char
  }

  /** The decimal numeral of `n`, without leading zeros. */
  function Decimal(n: nat): (s: string)
    ensures |s| >= 1 && AllDecimal(s)
    ensures |s| == 1 <==> n < 10
  {
    if n < 10 then [DecimalDigit(n)] else Decimal(n / 10) + [DecimalDigit(n % 10)]
  }

  /** The value of a string of decimal digits: the inverse of `Decimal`. */
  function DecimalValue(s: string): nat
    requires AllDecimal(s)
  {
    if s == [] then 0 else DecimalValue(s[..|s| - 1]) * 10 + (s[|s| - 1] as int - '0' as int)
  }

  lemma {:induction false} DecimalRoundTrip(n: nat)
    ensures DecimalValue(Decimal(n)) == n
  {
    if n >= 10 {
      DecimalRoundTrip(n / 10);
      var s := Decimal(n);
      assert s[..|s| - 1] == Decimal(n / 10);
    }
  }

  /** Distinct numbers have distinct numerals. */
  lemma DecimalInjective(a: nat, b: nat)
    requires Decimal(a) == Decimal(b)
    ensures a == b
  {
    DecimalRoundTrip(a);
    DecimalRoundTrip(b);
  }

  /** `String(n)` for an integer-valued number. */
  function IntToString(i: int): (s: string)
    ensures |s| >= 1
    ensures i >= 0 ==> AllDecimal(s) && DecimalValue(s) == i
    ensures i < 0 ==> s[0] == '-' && AllDecimal(s[1..]) && DecimalValue(s[1..]) == -i
  {
    DecimalRoundTrip(if i < 0 then -i else i);
    if i < 0 then "-" + Decimal(-i) else Decimal(i)
  }

  /** `String(n)` where `None` stands for `NaN`. */
  function NumberToString(n: Option<int>): string {
    match n
    case Some(i) => IntToString(i)
    case None => "NaN"
  }

  // ---------------------------------------------------------------- parseInt

  /** The white space and line terminators that `parseInt` skips at the start. */
  predicate IsJsWhitespace(c: char) {
    var k := c as int;
    k == 0x09 || k == 0x0A || k == 0x0B || k == 0x0C || k == 0x0D || k == 0x20
    || k == 0xA0 || k == 0x1680 || (0x2000 <= k <= 0x200A) || k == 0x2028
    || k == 0x2029 || k == 0x202F || k == 0x205F || k == 0x3000 || k == 0xFEFF
  }

  function TrimStart(s: string): (t: string)
    ensures |t| <= |s| && t == s[|s| - |t|..]
    ensures t == [] || !IsJsWhitespace(t[0])
  {
    if s != [] && IsJsWhitespace(s[0]) then TrimStart(s[1..]) else s
  }

  /** The number of hex digits at the front of `s`. */
  function HexPrefixLength(s: string): (k: nat)
    ensures k <= |s| && AllHex(s[..k])
    ensures k < |s| ==> !IsHexDigit(s[k])
  {
    if s == [] || !IsHexDigit(s[0]) then 0
    else
      var k := 1 + HexPrefixLength(s[1..]);
      assert s[..k] == [s[0]] + s[1..][..k - 1];
      k
  }

  /**
   * `parseInt(s, 16)`: skip leading white space, take an optional sign and an
   * optional "0x"/"0X", then read the longest run of hex digits; `None` is NaN.
   */
  function ParseIntHex(s: string): (r: Option<int>)
    ensures s == [] ==> r.None?
    ensures r.Some? ==> TrimStart(s) != [] && (r.value < 0 ==> TrimStart(s)[0] == '-')
  {
    var t := TrimStart(s);
    var v := AfterRadixPrefix(AfterSign(t));
    var k := HexPrefixLength(v);
    if k == 0 then None
    else
      var magnitude: int := HexValue(v[..k]);
      Some(if t[0] == '-' then -magnitude else magnitude)
  }

  function AfterSign(t: string): (u: string)
    ensures |u| <= |t|
  {
    if t != [] && (t[0] == '-' || t[0] == '+') then t[1..] else t
  }

  function AfterRadixPrefix(u: string): (v: string)
    ensures |v| <= |u|
  {
    if |u| >= 2 && u[0] == '0' && (u[1] == 'x' || u[1] == 'X') then u[2..] else u
  }

  /**
   * A non-empty run of hex digits followed by anything that is not a hex digit
   * parses to its value (an "x" after a lone "0" would be read as the "0x" prefix).
   */
  lemma ParseIntHexDigits(digits: string, rest: string)
    requires |digits| >= 1 && AllHex(digits)
    requires rest == [] || !IsHexDigit(rest[0])
    requires rest == [] || |digits| >= 2 || (rest[0] != 'x' && rest[0] != 'X')
    ensures ParseIntHex(digits + rest) == Some(HexValue(digits))
  {
    var s := digits + rest;
    PlainDigits(digits, rest);
    ParseIntHexPlain(s);
    assert s[..|digits|] == digits;
  }

  /** `parseInt(digits, 16)` of a string made only of hex digits is their value. */
  lemma ParseIntHexAll(digits: string)
    requires |digits| >= 1 && AllHex(digits)
    ensures ParseIntHex(digits) == Some(HexValue(digits))
  {
    assert digits + [] == digits;
    ParseIntHexDigits(digits, []);
  }

  lemma PlainDigits(digits: string, rest: string)
    requires |digits| >= 1 && AllHex(digits)
    requires rest == [] || !IsHexDigit(rest[0])
    requires rest == [] || |digits| >= 2 || (rest[0] != 'x' && rest[0] != 'X')
    ensures var s := digits + rest;
      s != [] && TrimStart(s) == s && s[0] != '-' && AfterRadixPrefix(AfterSign(s)) == s
      && HexPrefixLength(s) == |digits|
  {
    var s := digits + rest;
    assert TrimStart(s) == s && s[0] != '-' by {
      assert s[0] == digits[0];
      TrimStartHex(s);
    }
    assert AfterRadixPrefix(AfterSign(s)) == s by {
      assert s[0] == digits[0];
      assert AfterSign(s) == s;
      if |digits| >= 2 { assert s[1] == digits[1]; }
    }
    HexPrefixLengthOf(digits, rest);
  }

  lemma ParseIntHexPlain(s: string)
    requires s != [] && TrimStart(s) == s && s[0] != '-'
    requires AfterRadixPrefix(AfterSign(s)) == s && HexPrefixLength(s) >= 1
    ensures ParseIntHex(s) == Some(HexValue(s[..HexPrefixLength(s)]))
  {
  }

  lemma TrimStartHex(s: string)
    requires s != [] && IsHexDigit(s[0])
    ensures TrimStart(s) == s
  {
  }

  /** A string that starts with '#' is NaN to `parseInt`. */
  lemma ParseIntHexHash(s: string)
    requires s != [] && s[0] == '#'
    ensures ParseIntHex(s) == None
  {
    assert TrimStart(s) == s;
  }

  /** The `ToInt32` conversion of the bitwise operators; `None` (NaN) becomes 0. */
  function ToInt32(n: Option<int>): (r: int)
    ensures -0x8000_0000 <= r < 0x8000_0000
    ensures n.Some? && 0 <= n.value < 0x8000_0000 ==> r == n.value
    ensures n.None? ==> r == 0
  {
    match n
    case None => 0
    case Some(x) =>
      var m := x % 0x1_0000_0000;
      if m >= 0x8000_0000 then m - 0x1_0000_0000 else m
  }

  // ---------------------------------------------------------------- strings

  predicate StartsWith(s: string, prefix: string) {
    |prefix| <= |s| && s[..|prefix|] == prefix
  }

  function Clamp(i: int, lo: int, hi: int): (r: int)
    requires lo <= hi
    ensures lo <= r <= hi
    ensures lo <= i <= hi ==> r == i
  {
    if i < lo then lo else if i > hi then hi else i
  }

  /** `s.substring(start, end)`: both ends clamped to [0, |s|], swapped when reversed. */
  function Substring(s: string, start: int, end: int): (r: string)
    ensures 0 <= start <= end <= |s| ==> r == s[start..end]
    ensures 0 <= start <= |s| <= end ==> r == s[start..]
    ensures |r| <= |s|
  {
    var a := Clamp(start, 0, |s|);
    var b := Clamp(end, 0, |s|);
    if a <= b then s[a..b] else s[b..a]
  }

  /** `s.replace(c, "")` with a one-character string pattern: only the first occurrence goes. */
  function RemoveFirst(s: string, c: char): (r: string)
    ensures c !in s ==> r == s
    ensures c in s ==> |r| == |s| - 1
    ensures s != [] && s[0] == c ==> r == s[1..]
  {
    if s == [] then []
    else if s[0] == c then s[1..]
    else
      assert s == [s[0]] + s[1..];
      [s[0]] + RemoveFirst(s[1..], c)
  }

  /** `s.split(sep)` for a one-character separator: never empty; "" splits to [""]. */
  function Split(s: string, sep: char): (parts: seq<string>)
    ensures |parts| >= 1
  {
    if s == [] then [""]
    else
      var tail := Split(s[1..], sep);
      if s[0] == sep then [""] + tail else [[s[0]] + tail[0]] + tail[1..]
  }

  /** `parts.join(sep)`; the empty array joins to "". */
  function Join(parts: seq<string>, sep: string): string {
    if parts == [] then ""
    else if |parts| == 1 then parts[0]
    else parts[0] + sep + Join(parts[1..], sep)
  }

  /** Splitting loses nothing: the pieces contain no separator and join back to the input. */
  lemma {:induction false} SplitJoin(s: string, sep: char)
    ensures forall i :: 0 <= i < |Split(s, sep)| ==> sep !in Split(s, sep)[i]
    ensures Join(Split(s, sep), [sep]) == s
  {
    if s != [] {
      SplitJoin(s[1..], sep);
      var tail := Split(s[1..], sep);
      var parts := Split(s, sep);
      if s[0] == sep {
        assert parts[1..] == tail;
      } else {
        assert parts[1..] == tail[1..];
        if |tail| > 1 {
          assert Join(tail, [sep]) == tail[0] + [sep] + Join(tail[1..], [sep]);
        }
        assert s == [s[0]] + s[1..];
      }
    }
  }

  /** The pieces of a string with no separator, and of one with a separator after `a`. */
  lemma SplitAt(a: string, rest: string, sep: char)
    requires sep !in a
    ensures Split(a, sep) == [a]
    ensures Split(a + [sep] + rest, sep) == [a] + Split(rest, sep)
  {
    SplitNoSeparator(a, sep);
    SplitPrefix(a, rest, sep);
  }

  lemma {:induction false} SplitNoSeparator(a: string, sep: char)
    requires sep !in a
    ensures Split(a, sep) == [a]
  {
    if a != [] {
      assert sep !in a[1..];
      SplitNoSeparator(a[1..], sep);
      assert a == [a[0]] + a[1..];
    }
  }

  lemma {:induction false} SplitPrefix(a: string, rest: string, sep: char)
    requires sep !in a
    ensures Split(a + [sep] + rest, sep) == [a] + Split(rest, sep)
  {
    var s := a + [sep] + rest;
    if a == [] {
      assert s[1..] == rest;
    } else {
      assert sep !in a[1..];
      assert s[1..] == a[1..] + [sep] + rest;
      SplitPrefix(a[1..], rest, sep);
      assert a == [a[0]] + a[1..];
    }
  }
}
