/**
 * The colour picker of the shared UI package: hex validation, the preset
 * swatches, the fallback colour shown for an invalid value, the
 * normalisation of typed text and the popover's open flag.
 */
module ColorPicker {
  import opened Wrappers
  import opened Text

  /** Shown by the swatch and the native colour input whenever the value is not valid. */
  const FallbackColor := "#3b82f6"

  const PresetColors: seq<string> := [
    "#3b82f6", "#ef4444", "#10b981", "#f59e0b", "#8b5cf6", "#ec4899",
    "#06b6d4", "#84cc16", "#f97316", "#6366f1", "#14b8a6", "#a855f7",
    "#1f2937", "#374151", "#6b7280", "#9ca3af", "#d1d5db", "#f3f4f6"
  ]

  /**
   * `/^#([A-Fa-f0-9]{6}|[A-Fa-f0-9]{3})$/`: a '#' and then exactly six or
   * exactly three hex digits of either case.
   */
  predicate IsValidHex(hex: string): (valid: bool)
    ensures valid ==> hex != [] && '#' !in hex[1..] && RemoveFirst(hex, '#') == hex[1..]
  {
    |hex| >= 1 && hex[0] == '#' && (|hex| == 7 || |hex| == 4) && AllHex(hex[1..])
  }

  lemma ValidHexShape(digits: string)
    ensures IsValidHex("#" + digits) <==> AllHex(digits) && (|digits| == 3 || |digits| == 6)
  {
    assert ("#" + digits)[1..] == digits;
  }

  lemma PresetsAreValid()
    ensures |PresetColors| == 18
    ensures forall i :: 0 <= i < |PresetColors| ==> IsValidHex(PresetColors[i])
  {
    FirstRowValid();
    SecondRowValid();
    ThirdRowValid();
  }

  /** The swatches sit in rows of six; one row per proof keeps each proof small. */
  lemma FirstRowValid()
    ensures forall i :: 0 <= i < 6 ==> IsValidHex(PresetColors[i])
  {
    SixDigitColor(PresetColors[0]);
    SixDigitColor(PresetColors[1]);
    SixDigitColor(PresetColors[2]);
    SixDigitColor(PresetColors[3]);
    SixDigitColor(PresetColors[4]);
    SixDigitColor(PresetColors[5]);
  }

  lemma SecondRowValid()
    ensures forall i :: 6 <= i < 12 ==> IsValidHex(PresetColors[i])
  {
    SixDigitColor(PresetColors[6]);
    SixDigitColor(PresetColors[7]);
    SixDigitColor(PresetColors[8]);
    SixDigitColor(PresetColors[9]);
    SixDigitColor(PresetColors[10]);
    SixDigitColor(PresetColors[11]);
  }

  lemma ThirdRowValid()
    ensures forall i :: 12 <= i < 18 ==> IsValidHex(PresetColors[i])
  {
    SixDigitColor(PresetColors[12]);
    SixDigitColor(PresetColors[13]);
    SixDigitColor(PresetColors[14]);
    SixDigitColor(PresetColors[15]);
    SixDigitColor(PresetColors[16]);
    SixDigitColor(PresetColors[17]);
  }

  /** A '#' and six hex digits, checked character by character. */
  lemma SixDigitColor(s: string)
    requires |s| == 7 && s[0] == '#'
    requires IsHexDigit(s[1]) && IsHexDigit(s[2]) && IsHexDigit(s[3])
    requires IsHexDigit(s[4]) && IsHexDigit(s[5]) && IsHexDigit(s[6])
    ensures IsValidHex(s)
  {
    assert forall i :: 0 <= i < 6 ==> s[1..][i] == s[i + 1];
  }

  /** The colour the swatch and the native colour input display for `value`. */
  function DisplayedColor(value: string): (c: string)
    ensures IsValidHex(c)
    ensures IsValidHex(value) ==> c == value
    ensures !IsValidHex(value) ==> c == FallbackColor
  {
    if IsValidHex(value) then value else FallbackColor
  }

  /** The error text is shown for a non-empty value that is not valid hex. */
  predicate ShowsError(value: string) {
    value != "" && !IsValidHex(value)
  }

  /** Whenever the error text shows, the display has fallen back; a shown value is never flagged. */
  lemma ErrorMatchesFallback(value: string)
    ensures ShowsError(value) ==> DisplayedColor(value) == FallbackColor && value != FallbackColor
    ensures value != "" && !ShowsError(value) ==> DisplayedColor(value) == value
  {
  }

  /** The value emitted for text typed into the hex field. */
  function NormalizeTextInput(hex: string): (r: string)
    ensures hex != "" && hex[0] != '#' ==> r == "#" + hex
    ensures hex == "" || hex[0] == '#' ==> r == hex
  {
    if StartsWith(hex, "#") && (|hex| == 4 || |hex| == 7) then hex
    else if !StartsWith(hex, "#") && |hex| > 0 then "#" + hex
    else hex
  }

  /** Normalising twice is normalising once. */
  lemma NormalizeIdempotent(hex: string)
    ensures NormalizeTextInput(NormalizeTextInput(hex)) == NormalizeTextInput(hex)
  {
  }

  /** The emitted value is valid exactly when the text was valid or was three or six bare hex digits. */
  lemma NormalizeValidity(hex: string)
    ensures IsValidHex(NormalizeTextInput(hex))
      <==> IsValidHex(hex) || (AllHex(hex) && (|hex| == 3 || |hex| == 6))
  {
    if hex != "" && hex[0] != '#' {
      ValidHexShape(hex);
    }
  }

  // ------------------------------------------------------------ events

  datatype PickerEvent =
    | PresetClicked(color: string)
    | NativeColorInput(value: string)
    | TextTyped(text: string)
    | OpenChanged(open: bool)

  /** What the component passes to `onChange` (if anything) and its next open flag. */
  datatype PickerStep = PickerStep(emitted: Option<string>, open: bool)

  function Step(open: bool, event: PickerEvent): (r: PickerStep)
    ensures r.emitted.None? <==> event.OpenChanged?
    ensures r.open != open ==> event.PresetClicked? || event.OpenChanged?
  {
    match event
    case PresetClicked(color) => PickerStep(Some(color), false)
    case NativeColorInput(value) => PickerStep(Some(value), open)
    case TextTyped(text) => PickerStep(Some(NormalizeTextInput(text)), open)
    case OpenChanged(next) => PickerStep(None, next)
  }

  /** Choosing a preset emits exactly that colour, which is valid, and closes the popover. */
  lemma PresetClickEmitsValidColor(open: bool, i: nat)
    requires i < |PresetColors|
    ensures Step(open, PresetClicked(PresetColors[i])) == PickerStep(Some(PresetColors[i]), false)
    ensures IsValidHex(Step(open, PresetClicked(PresetColors[i])).emitted.value)
  {
    PresetsAreValid();
  }

  /** Typing never changes the open flag, and re-typing what was emitted emits it again. */
  lemma TypingIsStable(open: bool, text: string)
    ensures Step(open, TextTyped(text)).open == open
    ensures var e := Step(open, TextTyped(text)).emitted.value;
      Step(open, TextTyped(e)).emitted == Some(e)
  {
    NormalizeIdempotent(text);
  }
}
