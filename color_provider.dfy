/**
 * The widget's colour provider: it publishes the primary colour and its
 * "r, g, b" triple as CSS variables on the document root.
 */
module WidgetColorProvider {
  import opened Wrappers
  import opened Text
  import WidgetHeader

  /** The three `parseInt` results; `None` is NaN. */
  datatype RgbReading = RgbReading(r: Option<int>, g: Option<int>, b: Option<int>)

  /** Characters 0-1, 2-3 and 4-5 after the first '#' is removed, each read as hex. */
  function ReadChannels(primaryColor: string): (c: RgbReading)
    ensures |RemoveFirst(primaryColor, '#')| <= 4 ==> c.b.None?
    ensures |RemoveFirst(primaryColor, '#')| <= 2 ==> c.g.None?
    ensures primaryColor == "" ==> c == RgbReading(None, None, None)
  {
    var hex := RemoveFirst(primaryColor, '#');
    RgbReading(
      ParseIntHex(Substring(hex, 0, 2)),
      ParseIntHex(Substring(hex, 2, 4)),
      ParseIntHex(Substring(hex, 4, 6)))
  }

  /** The template string `${r}, ${g}, ${b}`. */
  function RgbVariable(primaryColor: string): (r: string)
    ensures ReadChannels(primaryColor).b.None? ==> |r| >= 3 && r[|r| - 3..] == "NaN"
  {
    RgbText(ReadChannels(primaryColor))
  }

  function RgbText(c: RgbReading): string {
    NumberToString(c.r) + ", " + NumberToString(c.g) + ", " + NumberToString(c.b)
  }

  datatype CssVariables = CssVariables(primaryColor: string, primaryRgb: string)

  /** `--widget-primary-color` and `--widget-primary-rgb` for the configured colour. */
  function Variables(configured: Option<string>): (v: CssVariables)
    ensures v.primaryColor != ""
    ensures configured.Some? && configured.value != "" ==> v.primaryColor == configured.value
    ensures v.primaryRgb == RgbVariable(v.primaryColor)
  {
    var color := WidgetHeader.PrimaryColor(configured);
    CssVariables(color, RgbVariable(color))
  }

  /**
   * For "#RRGGBB" the provider reads the same three channels the header's
   * shade is computed from.
   */
  lemma SixDigitReading(d: string)
    requires |d| == 6 && AllHex(d)
    ensures var c := WidgetHeader.DigitsChannels(d);
      ReadChannels("#" + d) == RgbReading(Some(c.red), Some(c.green), Some(c.blue))
  {
    ReadAfterHash(d);
    ParseChannels(d);
  }

  /** After the '#', the three channels are the three pairs of digits. */
  lemma ReadAfterHash(d: string)
    requires |d| == 6
    ensures ReadChannels("#" + d) == RgbReading(ParseIntHex(d[..2]), ParseIntHex(d[2..4]), ParseIntHex(d[4..]))
  {
    assert RemoveFirst("#" + d, '#') == d by {
      assert ("#" + d)[1..] == d;
    }
    assert Substring(d, 0, 2) == d[..2];
    assert Substring(d, 2, 4) == d[2..4];
    assert Substring(d, 4, 6) == d[4..];
  }

  lemma ParseChannels(d: string)
    requires |d| == 6 && AllHex(d)
    ensures var c := WidgetHeader.DigitsChannels(d);
      && ParseIntHex(d[..2]) == Some(c.red)
      && ParseIntHex(d[2..4]) == Some(c.green)
      && ParseIntHex(d[4..]) == Some(c.blue)
  {
    ParseRed(d);
    ParseGreen(d);
    ParseBlue(d);
  }

  lemma ParseRed(d: string)
    requires |d| == 6 && AllHex(d)
    ensures ParseIntHex(d[..2]) == Some(WidgetHeader.DigitsChannels(d).red)
  {
    ParseIntHexAll(d[..2]);
  }

  lemma ParseGreen(d: string)
    requires |d| == 6 && AllHex(d)
    ensures ParseIntHex(d[2..4]) == Some(WidgetHeader.DigitsChannels(d).green)
  {
    ParseIntHexAll(d[2..4]);
  }

  lemma ParseBlue(d: string)
    requires |d| == 6 && AllHex(d)
    ensures ParseIntHex(d[4..]) == Some(WidgetHeader.DigitsChannels(d).blue)
  {
    ParseIntHexAll(d[4..]);
  }

  /** Three numbers are printed in decimal, separated by ", ". */
  lemma RgbVariableOf(color: string, r: nat, g: nat, b: nat)
    requires ReadChannels(color) == RgbReading(Some(r), Some(g), Some(b))
    ensures RgbVariable(color) == Decimal(r) + ", " + Decimal(g) + ", " + Decimal(b)
  {
    assert RgbVariable(color) == RgbText(RgbReading(Some(r), Some(g), Some(b)));
    RgbTextOf(r, g, b);
  }

  lemma RgbTextOf(r: nat, g: nat, b: nat)
    ensures RgbText(RgbReading(Some(r), Some(g), Some(b))) == Decimal(r) + ", " + Decimal(g) + ", " + Decimal(b)
  {
    assert NumberToString(Some(r)) == Decimal(r);
    assert NumberToString(Some(g)) == Decimal(g);
    assert NumberToString(Some(b)) == Decimal(b);
  }

  /** The header's shade of a six-digit colour is the provider's channels, dimmed. */
  lemma HeaderDarkensProviderChannels(d: string, percent: int)
    requires |d| == 6 && AllHex(d) && percent >= 0
    ensures var rd := ReadChannels("#" + d);
      && rd.r.Some? && rd.g.Some? && rd.b.Some?
      && WidgetHeader.InRange(WidgetHeader.Rgb(rd.r.value, rd.g.value, rd.b.value))
      && WidgetHeader.DarkenedChannels("#" + d, percent)
        == WidgetHeader.DimAll(WidgetHeader.Rgb(rd.r.value, rd.g.value, rd.b.value), WidgetHeader.AmountFor(percent))
  {
    SixDigitReading(d);
    WidgetHeader.DarkenSixDigits(d, percent);
  }
}

/**
 * Three-digit colours. The form and the colour picker accept "#rgb", the CSS
 * shorthand for "#rrggbb" (section 5.2 of CSS Color Module Level 4), but the
 * header and the provider read the digits as if there were six. The functions
 * below expand the shorthand first.
 */
module ShorthandColors {
  import opened Wrappers
  import opened Text
  import ColorPicker
  import WidgetHeader
  import WidgetColorProvider

  /**
   * The provider reads a valid "#xyz" as "xy", "z" and "": the first channel
   * takes two digits, the second one and the third is NaN.
   */
  lemma ShorthandReadsNaN(d: string)
    requires |d| == 3 && AllHex(d)
    ensures ColorPicker.IsValidHex("#" + d)
    ensures WidgetColorProvider.ReadChannels("#" + d)
      == WidgetColorProvider.RgbReading(Some(HexValue(d[..2])), Some(HexDigitValue(d[2])), None)
  {
    ColorPicker.ValidHexShape(d);
    ShorthandAfterHash(d);
    ParseFirstPair(d);
    ParseLastDigit(d);
    ParseEmpty();
  }

  /** After the '#', the channels are "xy", "z" and the empty string. */
  lemma ShorthandAfterHash(d: string)
    requires |d| == 3
    ensures WidgetColorProvider.ReadChannels("#" + d)
      == WidgetColorProvider.RgbReading(ParseIntHex(d[..2]), ParseIntHex(d[2..]), ParseIntHex([]))
  {
    assert RemoveFirst("#" + d, '#') == d by {
      assert ("#" + d)[1..] == d;
    }
    assert Substring(d, 0, 2) == d[..2];
    assert Substring(d, 2, 4) == d[2..];
    assert Substring(d, 4, 6) == [];
  }

  lemma ParseFirstPair(d: string)
    requires |d| == 3 && AllHex(d)
    ensures ParseIntHex(d[..2]) == Some(HexValue(d[..2]))
  {
    ParseIntHexAll(d[..2]);
  }

  lemma ParseLastDigit(d: string)
    requires |d| == 3 && AllHex(d)
    ensures ParseIntHex(d[2..]) == Some(HexDigitValue(d[2]))
  {
    ParseOneDigit(d[2..]);
  }

  lemma ParseOneDigit(p: string)
    requires |p| == 1 && AllHex(p)
    ensures ParseIntHex(p) == Some(HexDigitValue(p[0]))
  {
    ParseIntHexAll(p);
    assert p[..0] == [];
  }

  lemma ParseEmpty()
    ensures ParseIntHex([]) == None
  {
  }

  /** The value of three hex digits, digit by digit. */
  lemma ThreeDigitValue(d: string)
    requires |d| == 3 && AllHex(d)
    ensures HexValue(d) == HexDigitValue(d[0]) * 256 + HexDigitValue(d[1]) * 16 + HexDigitValue(d[2])
  {
    HexValueTwo(d[0], d[1]);
    assert d[..2] == [d[0], d[1]];
    assert d[..2][..1] == [d[0]];
  }

  /**
   * The header reads a valid "#xyz" as the number 0xxyz: its red channel is
   * always 0 and the digits move into green and blue.
   */
  lemma ShorthandDarkensWrong(d: string, percent: int)
    requires |d| == 3 && AllHex(d) && percent >= 0
    ensures ShorthandAsPacked(d).red == 0
    ensures WidgetHeader.DarkenedChannels("#" + d, percent)
      == WidgetHeader.DimAll(ShorthandAsPacked(d), WidgetHeader.AmountFor(percent))
  {
    var c := ShorthandAsPacked(d);
    assert ("#" + d)[1..] == d;
    ParseThreeDigits(d);
    WidgetHeader.DarkenedFromPacked("#" + d, percent, c);
  }

  /** The channels `darkenColor` finds in the number 0xxyz. */
  function ShorthandAsPacked(d: string): (c: WidgetHeader.Rgb)
    requires |d| == 3 && AllHex(d)
    ensures WidgetHeader.InRange(c)
  {
    WidgetHeader.Rgb(0, HexDigitValue(d[0]), HexDigitValue(d[1]) * 16 + HexDigitValue(d[2]))
  }

  lemma ParseThreeDigits(d: string)
    requires |d| == 3 && AllHex(d)
    ensures ParseIntHex(d) == Some(WidgetHeader.Packed(ShorthandAsPacked(d)))
  {
    ParseIntHexAll(d);
    ShorthandPackedValue(d);
  }

  lemma ShorthandPackedValue(d: string)
    requires |d| == 3 && AllHex(d)
    ensures HexValue(d) == WidgetHeader.Packed(ShorthandAsPacked(d))
  {
    ThreeDigitValue(d);
  }

  /** The six digits a colour stands for: "#rgb" doubles each digit. */
  function ExpandedDigits(color: string): (d: string)
    ensures ColorPicker.IsValidHex(color) ==> |d| == 6 && AllHex(d)
  {
    var hex := RemoveFirst(color, '#');
    if |hex| == 3 then [hex[0], hex[0], hex[1], hex[1], hex[2], hex[2]] else hex
  }

  /** The provider's triple, read from the expanded digits. */
  function RgbVariableExpanded(color: string): string {
    WidgetColorProvider.RgbVariable("#" + ExpandedDigits(color))
  }

  /** The header's shade, computed from the expanded digits. */
  function DarkenColorExpanded(color: string, percent: int): string {
    WidgetHeader.DarkenColor("#" + ExpandedDigits(color), percent)
  }

  /** A six-digit colour is read exactly as before. */
  lemma ExpandedKeepsSixDigits(d: string)
    requires |d| == 6
    ensures ExpandedDigits("#" + d) == d
  {
    assert ("#" + d)[1..] == d;
  }

  /** "#xyz" stands for the channels 0xxx, 0xyy, 0xzz, that is 17 times each digit. */
  lemma ExpandedShorthandChannels(d: string)
    requires |d| == 3 && AllHex(d)
    ensures ColorPicker.IsValidHex("#" + d)
    ensures WidgetHeader.DigitsChannels(ExpandedDigits("#" + d))
      == WidgetHeader.Rgb(17 * HexDigitValue(d[0]), 17 * HexDigitValue(d[1]), 17 * HexDigitValue(d[2]))
  {
    assert ("#" + d)[1..] == d;
    var e := ExpandedDigits("#" + d);
    assert e == [d[0], d[0], d[1], d[1], d[2], d[2]];
    assert e[..2] == [d[0], d[0]] && e[2..4] == [d[1], d[1]] && e[4..] == [d[2], d[2]];
    HexValueTwo(d[0], d[0]);
    HexValueTwo(d[1], d[1]);
    HexValueTwo(d[2], d[2]);
  }

  /** Every valid colour gives three decimal channels in [0, 255] and no NaN. */
  lemma ValidColorHasChannels(color: string)
    requires ColorPicker.IsValidHex(color)
    ensures var c := WidgetHeader.DigitsChannels(ExpandedDigits(color));
      && WidgetHeader.InRange(c)
      && RgbVariableExpanded(color) == Decimal(c.red) + ", " + Decimal(c.green) + ", " + Decimal(c.blue)
  {
    var c := WidgetHeader.DigitsChannels(ExpandedDigits(color));
    WidgetColorProvider.SixDigitReading(ExpandedDigits(color));
    WidgetColorProvider.RgbVariableOf("#" + ExpandedDigits(color), c.red, c.green, c.blue);
  }

  /** Every valid colour is darkened channel by channel, so the shade is never brighter. */
  lemma ValidColorDarkens(color: string, percent: int)
    requires ColorPicker.IsValidHex(color) && percent >= 0
    ensures var c := WidgetHeader.DigitsChannels(ExpandedDigits(color));
      DarkenColorExpanded(color, percent)
        == WidgetHeader.FormatRgb(WidgetHeader.DimAll(c, WidgetHeader.AmountFor(percent)))
  {
    WidgetHeader.DarkenSixDigits(ExpandedDigits(color), percent);
  }
}
