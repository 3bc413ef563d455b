/**
 * The widget header's gradient: the configured primary colour and a darker
 * shade of it computed with the integer tricks of `darkenColor`.
 */
module WidgetHeader {
  import opened Wrappers
  import opened Text
  import ColorPicker

  const DefaultPrimaryColor := "#3b82f6"

  /** The percentage the header darkens by. */
  const DefaultPercent := 15

  /** The configured colour, or blue when it is missing or empty. */
  function PrimaryColor(configured: Option<string>): (c: string)
    ensures c != ""
    ensures configured.Some? && configured.value != "" ==> c == configured.value
    ensures configured.None? || configured == Some("") ==> c == DefaultPrimaryColor
  {
    match configured
    case Some(color) => if color == "" then DefaultPrimaryColor else color
    case None => DefaultPrimaryColor
  }

  /** `Math.round(2.55 * percent)` on exact rationals: 2.55 * percent rounded half up. */
  function AmountFor(percent: int): (amt: int)
    ensures 100 * amt - 50 <= 255 * percent < 100 * amt + 50
    ensures percent >= 0 ==> amt >= 0
  {
    (255 * percent + 50) / 100
  }

  lemma DefaultAmount()
    ensures AmountFor(DefaultPercent) == 38
  {
  }

  /** `R < 255 ? R < 1 ? 0 : R : 255`. */
  function ClampChannel(x: int): (c: int)
    ensures 0 <= c <= 255
    ensures 1 <= x <= 255 ==> c == x
    ensures x < 1 ==> c == 0
    ensures x > 255 ==> c == 255
  {
    if x < 255 then (if x < 1 then 0 else x) else 255
  }

  datatype Rgb = Rgb(red: int, green: int, blue: int)

  predicate InRange(c: Rgb) {
    0 <= c.red <= 255 && 0 <= c.green <= 255 && 0 <= c.blue <= 255
  }

  /** The colour as one number 0xRRGGBB. */
  function Packed(c: Rgb): int {
    c.red * 0x1_0000 + c.green * 0x100 + c.blue
  }

  /**
   * The channels `darkenColor` computes: the first '#' is removed, the rest is
   * read by `parseInt(_, 16)` (NaN counts as 0 in the bit operations), split
   * with `>> 16`, `>> 8 & 0xFF`, `& 0xFF`, lowered by the amount and clamped.
   */
  function DarkenedChannels(hex: string, percent: int): (c: Rgb)
    ensures InRange(c)
  {
    ShiftedChannels(ToInt32(ParseIntHex(RemoveFirst(hex, '#'))), AmountFor(percent))
  }

  /** The three bytes of `num` above the lowest, lowered by `amt` and clamped. */
  function ShiftedChannels(num: int, amt: int): (c: Rgb)
    ensures InRange(c)
  {
    Rgb(ClampChannel(num / 0x1_0000 - amt),
        ClampChannel((num / 0x100) % 0x100 - amt),
        ClampChannel(num % 0x100 - amt))
  }

  lemma PackedBound(c: Rgb)
    requires InRange(c)
    ensures 0 <= Packed(c) < Pow16(6) && Pow16(6) == 0x100_0000
  {
  }

  /** `"#" + (0x1000000 + packed).toString(16).slice(1)`: always six lower-case digits. */
  function FormatRgb(c: Rgb): (s: string)
    requires InRange(c)
    ensures s == "#" + HexFixed(Packed(c), 6)
    ensures |s| == 7 && s[0] == '#' && AllLowerHex(s[1..])
  {
    PackedBound(c);
    ToHexStringLeadingOne(Packed(c), 6);
    "#" + ToHexString(0x100_0000 + Packed(c))[1..]
  }

  /** `darkenColor(hex, percent)`: whatever the input, a valid six-digit colour. */
  function DarkenColor(hex: string, percent: int): (r: string)
    ensures ColorPicker.IsValidHex(r) && |r| == 7 && AllLowerHex(r[1..])
  {
    FormatRgb(DarkenedChannels(hex, percent))
  }

  /** The end colour of the header's gradient. */
  function GradientTo(primaryColor: string): (g: string)
    ensures ColorPicker.IsValidHex(g) && |g| == 7 && AllLowerHex(g[1..])
  {
    DarkenColor(primaryColor, DefaultPercent)
  }

  // ------------------------------------------------------------ reading colours

  /** The channels of six hex digits, two digits each. */
  function DigitsChannels(d: string): (c: Rgb)
    requires |d| == 6 && AllHex(d)
    ensures InRange(c)
  {
    assert AllHex(d[..2]) && AllHex(d[2..4]) && AllHex(d[4..]);
    Rgb(HexValue(d[..2]), HexValue(d[2..4]), HexValue(d[4..]))
  }

  /** Six hex digits are the packed value of their three channels. */
  lemma SixDigitValue(d: string)
    requires |d| == 6 && AllHex(d)
    ensures HexValue(d) == Packed(DigitsChannels(d))
  {
    var hi, mid, lo := d[..2], d[2..4], d[4..];
    assert AllHex(hi) && AllHex(mid) && AllHex(lo);
    assert Pow16(2) == 256;
    assert d[..4] == hi + mid;
    HexValueAppend(hi, mid);
    var top := HexValue(d[..4]);
    assert top == HexValue(hi) * 256 + HexValue(mid);
    assert d == d[..4] + lo;
    HexValueAppend(d[..4], lo);
    assert HexValue(d) == top * 256 + HexValue(lo);
  }

  lemma PackedChannels(c: Rgb)
    requires InRange(c)
    ensures Packed(c) / 0x1_0000 == c.red
    ensures (Packed(c) / 0x100) % 0x100 == c.green
    ensures Packed(c) % 0x100 == c.blue
  {
    var p := Packed(c);
    assert p / 0x100 == c.red * 0x100 + c.green;
  }

  /** `parseInt(d, 16)` for six hex digits is their packed channels. */
  lemma ParseSixDigits(d: string)
    requires |d| == 6 && AllHex(d)
    ensures ParseIntHex(d) == Some(Packed(DigitsChannels(d)))
  {
    ParseIntHexAll(d);
    SixDigitValue(d);
  }

  /** A channel lowered by `amt`, never below zero. */
  function Dim(channel: int, amt: int): int {
    if channel - amt < 0 then 0 else channel - amt
  }

  function DimAll(c: Rgb, amt: int): (d: Rgb)
    requires InRange(c) && amt >= 0
    ensures InRange(d)
    ensures d.red <= c.red && d.green <= c.green && d.blue <= c.blue
  {
    Rgb(Dim(c.red, amt), Dim(c.green, amt), Dim(c.blue, amt))
  }

  /** The channels `darkenColor` works on, once the number is split again. */
  lemma DarkenedFromPacked(hex: string, percent: int, c: Rgb)
    requires InRange(c) && percent >= 0
    requires ParseIntHex(RemoveFirst(hex, '#')) == Some(Packed(c))
    ensures DarkenedChannels(hex, percent) == DimAll(c, AmountFor(percent))
  {
    PackedToInt32(c);
    ShiftPacked(c, AmountFor(percent));
  }

  /** A packed colour fits in 24 bits, so the 32-bit conversion keeps it. */
  lemma PackedToInt32(c: Rgb)
    requires InRange(c)
    ensures ToInt32(Some(Packed(c))) == Packed(c)
  {
    PackedBound(c);
  }

  lemma ShiftPacked(c: Rgb, amt: int)
    requires InRange(c) && amt >= 0
    ensures ShiftedChannels(Packed(c), amt) == DimAll(c, amt)
  {
    PackedChannels(c);
  }

  /**
   * For a colour "#RRGGBB", each output channel is the input channel lowered
   * by the amount and floored at zero: the shade is never brighter.
   */
  lemma DarkenSixDigits(d: string, percent: int)
    requires |d| == 6 && AllHex(d) && percent >= 0
    ensures DarkenedChannels("#" + d, percent) == DimAll(DigitsChannels(d), AmountFor(percent))
  {
    assert ("#" + d)[1..] == d;
    ParseSixDigits(d);
    DarkenedFromPacked("#" + d, percent, DigitsChannels(d));
  }

  /** The darkened colour reads back as its own channels. */
  lemma FormatReadsBack(c: Rgb)
    requires InRange(c)
    ensures ParseIntHex(RemoveFirst(FormatRgb(c), '#')) == Some(Packed(c))
    ensures DigitsChannels(FormatRgb(c)[1..]) == c
  {
    var s := FormatRgb(c);
    var d := HexFixed(Packed(c), 6);
    assert s[1..] == d;
    PackedBound(c);
    HexFixedValue(Packed(c), 6);
    ParseSixDigits(d);
    SixDigitValue(d);
    PackedChannels(c);
    PackedChannels(DigitsChannels(d));
  }

  /** Darkening a shade again lowers each channel by the second amount too. */
  lemma DarkenTwice(hex: string, p: int, q: int)
    requires p >= 0 && q >= 0
    ensures DarkenedChannels(DarkenColor(hex, p), q)
      == DimAll(DarkenedChannels(hex, p), AmountFor(q))
  {
    var c := DarkenedChannels(hex, p);
    FormatReadsBack(c);
    DarkenedFromPacked(DarkenColor(hex, p), q, c);
  }

  /** Darkening by zero percent only normalises the spelling. */
  lemma DarkenByZero(d: string)
    requires |d| == 6 && AllHex(d)
    ensures DarkenColor("#" + d, 0) == "#" + HexFixed(HexValue(d), 6)
  {
    var c := DigitsChannels(d);
    DarkenZeroChannels(d);
    SixDigitValue(d);
    assert DarkenColor("#" + d, 0) == FormatRgb(c);
  }

  lemma DarkenZeroChannels(d: string)
    requires |d| == 6 && AllHex(d)
    ensures DarkenedChannels("#" + d, 0) == DigitsChannels(d)
  {
    DarkenSixDigits(d, 0);
    DimByNothing(DigitsChannels(d));
  }

  lemma DimByNothing(c: Rgb)
    requires InRange(c)
    ensures AmountFor(0) == 0 && DimAll(c, 0) == c
  {
  }
}
