/**
 * The dashboard's widget-settings form schema, as a validity predicate and
 * as the list of issues a parse reports, field by field in declaration order.
 */
module WidgetSettingsSchema {
  import opened Wrappers
  import opened Text
  import ColorPicker

  datatype Suggestions = Suggestions(suggestion1: Option<string>, suggestion2: Option<string>, suggestion3: Option<string>)
  datatype Appearance = Appearance(primaryColor: string, position: string, theme: string)
  datatype VapiSettings = VapiSettings(assistantId: Option<string>, phoneNumber: Option<string>)
  datatype WidgetSettings = WidgetSettings(
    greetMessage: string,
    defaultSuggestions: Suggestions,
    appearance: Appearance,
    vapiSettings: VapiSettings)

  datatype Issue = Issue(path: seq<string>, message: string)

  const GreetMessageMax := 500
  const SuggestionMax := 100
  const Positions: set<string> := {"bottom-right", "bottom-left"}
  const Themes: set<string> := {"light", "dark", "auto"}

  /** The schema's colour pattern, an alternation of six and three hex digits after '#'. */
  predicate MatchesHexPattern(color: string) {
    || (|color| == 7 && color[0] == '#' && AllHex(color[1..7]))
    || (|color| == 4 && color[0] == '#' && AllHex(color[1..4]))
  }

  /** The form accepts exactly the colours the colour picker calls valid. */
  lemma PatternAgreesWithPicker(color: string)
    ensures MatchesHexPattern(color) <==> ColorPicker.IsValidHex(color)
  {
    if |color| == 7 { assert color[1..7] == color[1..]; }
    if |color| == 4 { assert color[1..4] == color[1..]; }
  }

  predicate ValidGreetMessage(m: string) {
    1 <= |m| <= GreetMessageMax
  }

  /** A suggestion may be absent, empty or at most 100 characters long. */
  predicate ValidSuggestion(s: Option<string>) {
    s.None? || s.value == "" || |s.value| <= SuggestionMax
  }

  predicate Valid(settings: WidgetSettings) {
    && ValidGreetMessage(settings.greetMessage)
    && ValidSuggestion(settings.defaultSuggestions.suggestion1)
    && ValidSuggestion(settings.defaultSuggestions.suggestion2)
    && ValidSuggestion(settings.defaultSuggestions.suggestion3)
    && MatchesHexPattern(settings.appearance.primaryColor)
    && settings.appearance.position in Positions
    && settings.appearance.theme in Themes
  }

  function GreetMessageIssues(m: string): (issues: seq<Issue>)
    ensures |issues| <= 1
    ensures forall i :: 0 <= i < |issues| ==> issues[i].path == ["greetMessage"]
  {
    (if |m| < 1 then [Issue(["greetMessage"], "Welcome message is required")] else [])
    + (if |m| > GreetMessageMax then [Issue(["greetMessage"], "Welcome message must be less than 500 characters")] else [])
  }

  function SuggestionIssues(name: string, s: Option<string>): (issues: seq<Issue>)
    ensures |issues| <= 1
    ensures forall i :: 0 <= i < |issues| ==> issues[i].path == ["defaultSuggestions", name]
  {
    match s
    case Some(text) =>
      if |text| > SuggestionMax then [Issue(["defaultSuggestions", name], "Suggestion must be less than 100 characters")] else []
    case None => []
  }

  function AppearanceIssues(a: Appearance): (issues: seq<Issue>)
    ensures |issues| <= 3
    ensures forall i :: 0 <= i < |issues| ==> |issues[i].path| == 2 && issues[i].path[0] == "appearance"
  {
    (if MatchesHexPattern(a.primaryColor) then []
     else [Issue(["appearance", "primaryColor"], "Please enter a valid hex color (e.g., #3b82f6)")])
    + (if a.position in Positions then []
       else [Issue(["appearance", "position"], "Position must be either bottom-right or bottom-left")])
    + (if a.theme in Themes then []
       else [Issue(["appearance", "theme"], "Theme must be light, dark, or auto")])
  }

  /** The issues of a parse, in the order the fields are declared; the voice settings accept anything. */
  function Validate(settings: WidgetSettings): (issues: seq<Issue>)
    ensures |issues| <= 7
    ensures forall i :: 0 <= i < |issues| ==>
      issues[i].path != [] && issues[i].path[0] in {"greetMessage", "defaultSuggestions", "appearance"}
  {
    GreetMessageIssues(settings.greetMessage)
    + SuggestionIssues("suggestion1", settings.defaultSuggestions.suggestion1)
    + SuggestionIssues("suggestion2", settings.defaultSuggestions.suggestion2)
    + SuggestionIssues("suggestion3", settings.defaultSuggestions.suggestion3)
    + AppearanceIssues(settings.appearance)
  }

  /** A parse reports no issue exactly when the settings are valid. */
  lemma ValidateIffValid(settings: WidgetSettings)
    ensures Validate(settings) == [] <==> Valid(settings)
  {
    var d := settings.defaultSuggestions;
    GreetMessageIssuesEmpty(settings.greetMessage);
    SuggestionIssuesEmpty("suggestion1", d.suggestion1);
    SuggestionIssuesEmpty("suggestion2", d.suggestion2);
    SuggestionIssuesEmpty("suggestion3", d.suggestion3);
    AppearanceIssuesEmpty(settings.appearance);
    assert |Validate(settings)| == |GreetMessageIssues(settings.greetMessage)|
      + |SuggestionIssues("suggestion1", d.suggestion1)|
      + |SuggestionIssues("suggestion2", d.suggestion2)|
      + |SuggestionIssues("suggestion3", d.suggestion3)|
      + |AppearanceIssues(settings.appearance)|;
  }

  lemma GreetMessageIssuesEmpty(m: string)
    ensures GreetMessageIssues(m) == [] <==> ValidGreetMessage(m)
  {
  }

  lemma SuggestionIssuesEmpty(name: string, s: Option<string>)
    ensures SuggestionIssues(name, s) == [] <==> ValidSuggestion(s)
  {
  }

  lemma AppearanceIssuesEmpty(a: Appearance)
    ensures AppearanceIssues(a) == []
      <==> MatchesHexPattern(a.primaryColor) && a.position in Positions && a.theme in Themes
  {
  }

  /** The voice-assistant fields never cause an issue, whatever they hold. */
  lemma VapiSettingsUnconstrained(settings: WidgetSettings, vapi: VapiSettings)
    ensures Validate(settings.(vapiSettings := vapi)) == Validate(settings)
    ensures Valid(settings.(vapiSettings := vapi)) <==> Valid(settings)
  {
  }
}
