/**
 * The backend's email helpers: sender formatting, configuration defaults,
 * HTML escaping of user text, truncation and the tracking headers.
 */
module EmailUtils {
  import opened Wrappers
  import opened Text

  // ------------------------------------------------------------ addresses

  /** `"Name <email>"`, or the bare address when the name is absent or empty. */
  function FormatEmailAddress(email: string, name: Option<string>): (r: string)
    ensures name.None? || name == Some("") ==> r == email
    ensures name.Some? && name.value != "" ==> r == name.value + " <" + email + ">"
  {
    match name
    case Some(n) => if n == "" then email else n + " <" + email + ">"
    case None => email
  }

  /**
   * A named address starts with the name and ends with the address in angle
   * brackets; when the address has no '<' that bracket is the last '<'.
   */
  lemma FormattedAddressEnclosesEmail(email: string, name: string)
    requires name != ""
    ensures var r := FormatEmailAddress(email, Some(name));
      && |r| == |name| + |email| + 3
      && r[..|name|] == name && r[|name|] == ' '
      && r[|r| - 1] == '>' && r[|r| - |email| - 2] == '<'
      && r[|r| - |email| - 1..|r| - 1] == email
      && ('<' !in email ==> forall k :: |r| - |email| - 2 < k < |r| ==> r[k] != '<')
  {
    var r := FormatEmailAddress(email, Some(name));
    assert forall k :: |r| - |email| - 2 < k < |r| - 1 ==> r[k] == email[k - (|r| - |email| - 1)];
  }

  // ------------------------------------------------------------ configuration

  datatype EmailConfig = EmailConfig(fromName: string, fromEmail: string, replyToEmail: Option<string>)

  /** `Partial<EmailConfig>`: every field may be missing (null or undefined). */
  datatype PartialEmailConfig = PartialEmailConfig(fromName: Option<string>, fromEmail: Option<string>, replyToEmail: Option<string>)

  const DefaultEmailConfig := EmailConfig("Halply", "send@responsely.ai", Some("support@responsely.ai"))

  /** `a ?? b` on an optional value: only a missing value falls back; "" is kept. */
  function Coalesce(a: Option<string>, b: string): (r: string)
    ensures a.Some? ==> r == a.value
    ensures a.None? ==> r == b
  {
    match a
    case Some(v) => v
    case None => b
  }

  /** Each field from the custom configuration when it is present, otherwise the default. */
  function GetEmailConfig(custom: Option<PartialEmailConfig>): (r: EmailConfig)
    ensures r.replyToEmail.Some?
    ensures custom.None? ==> r == DefaultEmailConfig
    ensures custom.Some? ==>
      && r.fromName == custom.value.fromName.GetOr(DefaultEmailConfig.fromName)
      && r.fromEmail == custom.value.fromEmail.GetOr(DefaultEmailConfig.fromEmail)
      && r.replyToEmail == Some(custom.value.replyToEmail.GetOr(DefaultEmailConfig.replyToEmail.value))
  {
    var fields := custom.GetOr(PartialEmailConfig(None, None, None));
    EmailConfig(
      Coalesce(fields.fromName, DefaultEmailConfig.fromName),
      Coalesce(fields.fromEmail, DefaultEmailConfig.fromEmail),
      Some(Coalesce(fields.replyToEmail, DefaultEmailConfig.replyToEmail.value)))
  }

  function AsPartial(c: EmailConfig): PartialEmailConfig {
    PartialEmailConfig(Some(c.fromName), Some(c.fromEmail), c.replyToEmail)
  }

  /** A complete configuration, empty strings included, is returned as given. */
  lemma CompleteConfigKept(c: EmailConfig)
    requires c.replyToEmail.Some?
    ensures GetEmailConfig(Some(AsPartial(c))) == c
  {
  }

  /** Resolving a resolved configuration again changes nothing. */
  lemma GetEmailConfigIdempotent(custom: Option<PartialEmailConfig>)
    ensures GetEmailConfig(Some(AsPartial(GetEmailConfig(custom)))) == GetEmailConfig(custom)
  {
  }

  // ------------------------------------------------------------ HTML escaping

  /** `s.replace(/c/g, rep)`. */
  function ReplaceAll(s: string, c: char, rep: string): (r: string)
    ensures c !in s ==> r == s
  {
    if s == [] then [] else (if s[0] == c then rep else [s[0]]) + ReplaceAll(s[1..], c, rep)
  }

  lemma {:induction false} ReplaceAllConcat(a: string, b: string, c: char, rep: string)
    ensures ReplaceAll(a + b, c, rep) == ReplaceAll(a, c, rep) + ReplaceAll(b, c, rep)
  {
    if a != [] {
      assert (a + b)[1..] == a[1..] + b;
      ReplaceAllConcat(a[1..], b, c, rep);
    } else {
      assert a + b == b;
    }
  }

  /** The chained replacements of `sanitizeForEmail`, `&` first. */
  function SanitizeForEmail(content: string): (r: string)
    ensures (forall c :: c in content ==> c !in "&<>\"'") ==> r == content
  {
    var s1 := ReplaceAll(content, '&', "&amp;");
    var s2 := ReplaceAll(s1, '<', "&lt;");
    var s3 := ReplaceAll(s2, '>', "&gt;");
    var s4 := ReplaceAll(s3, '"', "&quot;");
    ReplaceAll(s4, '\'', "&#x27;")
  }

  /** The entity that stands for one character of the input. */
  function EscapeChar(c: char): string {
    if c == '&' then "&amp;"
    else if c == '<' then "&lt;"
    else if c == '>' then "&gt;"
    else if c == '"' then "&quot;"
    else if c == '\'' then "&#x27;"
    else [c]
  }

  lemma SanitizeConcat(a: string, b: string)
    ensures SanitizeForEmail(a + b) == SanitizeForEmail(a) + SanitizeForEmail(b)
  {
    var a1 := ReplaceAll(a, '&', "&amp;");
    var b1 := ReplaceAll(b, '&', "&amp;");
    ReplaceAllConcat(a, b, '&', "&amp;");
    var a2 := ReplaceAll(a1, '<', "&lt;");
    var b2 := ReplaceAll(b1, '<', "&lt;");
    ReplaceAllConcat(a1, b1, '<', "&lt;");
    var a3 := ReplaceAll(a2, '>', "&gt;");
    var b3 := ReplaceAll(b2, '>', "&gt;");
    ReplaceAllConcat(a2, b2, '>', "&gt;");
    var a4 := ReplaceAll(a3, '"', "&quot;");
    var b4 := ReplaceAll(b3, '"', "&quot;");
    ReplaceAllConcat(a3, b3, '"', "&quot;");
    ReplaceAllConcat(a4, b4, '\'', "&#x27;");
  }

  /** Escaping one character: no later replacement touches an earlier entity. */
  lemma SanitizeChar(c: char)
    ensures SanitizeForEmail([c]) == EscapeChar(c)
  {
    EscapeCharIsInert(c);
    var e := EscapeChar(c);
    var s1 := ReplaceAll([c], '&', "&amp;");
    ReplaceSingle(c, '&', "&amp;");
    assert s1 == e || (s1 == [c] && c != '&');
    var s2 := ReplaceAll(s1, '<', "&lt;");
    ReplaceSingle(c, '<', "&lt;");
    assert s2 == e || (s2 == [c] && c != '&' && c != '<');
    var s3 := ReplaceAll(s2, '>', "&gt;");
    ReplaceSingle(c, '>', "&gt;");
    assert s3 == e || (s3 == [c] && c != '&' && c != '<' && c != '>');
    var s4 := ReplaceAll(s3, '"', "&quot;");
    ReplaceSingle(c, '"', "&quot;");
    assert s4 == e || (s4 == [c] && c != '&' && c != '<' && c != '>' && c != '"');
    ReplaceSingle(c, '\'', "&#x27;");
  }

  lemma ReplaceSingle(c: char, x: char, rep: string)
    ensures ReplaceAll([c], x, rep) == if c == x then rep else [c]
  {
    assert [c][1..] == [];
  }

  /** The chained replacements escape each character on its own. */
  lemma {:induction false} SanitizeCharwise(s: string)
    ensures s != [] ==> SanitizeForEmail(s) == EscapeChar(s[0]) + SanitizeForEmail(s[1..])
    ensures s == [] ==> SanitizeForEmail(s) == []
  {
    if s != [] {
      assert s == [s[0]] + s[1..];
      SanitizeConcat([s[0]], s[1..]);
      SanitizeChar(s[0]);
    }
  }

  /** The escaped text holds none of `<`, `>`, `"`, `'`. */
  lemma {:induction false} SanitizedIsInert(s: string)
    ensures var r := SanitizeForEmail(s);
      '<' !in r && '>' !in r && '"' !in r && '\'' !in r
  {
    SanitizeCharwise(s);
    if s != [] {
      SanitizedIsInert(s[1..]);
      EscapeCharIsInert(s[0]);
    }
  }

  lemma EscapeCharIsInert(c: char)
    ensures var e := EscapeChar(c);
      '<' !in e && '>' !in e && '"' !in e && '\'' !in e
  {
  }

  /** HTML entity decoding of the five entities the escaping produces. */
  function Unescape(s: string): string {
    if s == [] then []
    else
      match EntityAt(s)
      case Some(entity) => [entity.0] + Unescape(s[entity.1..])
      case None => [s[0]] + Unescape(s[1..])
  }

  /** The character and length of the entity `s` starts with, if any. */
  function EntityAt(s: string): (r: Option<(char, nat)>)
    ensures r.Some? ==> 1 <= r.value.1 <= |s|
  {
    if StartsWith(s, "&amp;") then Some(('&', 5))
    else if StartsWith(s, "&lt;") then Some(('<', 4))
    else if StartsWith(s, "&gt;") then Some(('>', 4))
    else if StartsWith(s, "&quot;") then Some(('"', 6))
    else if StartsWith(s, "&#x27;") then Some(('\'', 6))
    else None
  }

  lemma EntityAtEscaped(c: char, rest: string)
    ensures EntityAt(EscapeChar(c) + rest) ==
      if EscapeChar(c) == [c] then None else Some((c, |EscapeChar(c)|))
  {
    var e := EscapeChar(c);
    var s := e + rest;
    assert s[..|e|] == e;
    if e == [c] {
      assert s[0] == c && c != '&';
    } else if c == '<' {
      assert s[1] == 'l';
    } else if c == '>' {
      assert s[1] == 'g';
    } else if c == '"' {
      assert s[1] == 'q';
    } else if c == '\'' {
      assert s[1] == '#';
    }
  }

  lemma UnescapeEscaped(c: char, rest: string)
    ensures Unescape(EscapeChar(c) + rest) == [c] + Unescape(rest)
  {
    var e := EscapeChar(c);
    EntityAtEscaped(c, rest);
    assert (e + rest)[|e|..] == rest;
  }

  /** Because `&` is escaped first, decoding the entities gives back the input exactly. */
  lemma {:induction false} SanitizeRoundTrip(s: string)
    ensures Unescape(SanitizeForEmail(s)) == s
  {
    SanitizeCharwise(s);
    if s != [] {
      SanitizeRoundTrip(s[1..]);
      UnescapeEscaped(s[0], SanitizeForEmail(s[1..]));
      assert s == [s[0]] + s[1..];
    }
  }

  // ------------------------------------------------------------ truncation

  /** The text itself when it fits, otherwise its start and "...". */
  function TruncateText(text: string, maxLength: int): (r: string)
    ensures |text| <= maxLength ==> r == text
    ensures |text| > maxLength >= 3 ==> |r| == maxLength && r == text[..maxLength - 3] + "..."
    ensures |text| > maxLength && maxLength < 3 ==> r == "..."
  {
    if |text| <= maxLength then text else Substring(text, 0, maxLength - 3) + "..."
  }

  // ------------------------------------------------------------ headers

  datatype Header = Header(name: string, value: string)

  const EntityRefHeader := "X-Entity-Ref-ID"
  const EmailTypeHeader := "X-Email-Type"
  const MailerHeader := "X-Mailer"

  function GetTrackingHeaders(entityId: string, emailType: string): (r: seq<Header>)
    ensures |r| == 3
    ensures r[0].name == EntityRefHeader && r[1].name == EmailTypeHeader && r[2].name == MailerHeader
    ensures r[0].value == entityId && r[1].value == emailType && r[2].value == "Responsely"
  {
    [Header(EntityRefHeader, entityId), Header(EmailTypeHeader, emailType), Header(MailerHeader, "Responsely")]
  }

  /** The value of the first header with the given name. */
  function HeaderValue(headers: seq<Header>, name: string): Option<string> {
    if headers == [] then None
    else if headers[0].name == name then Some(headers[0].value)
    else HeaderValue(headers[1..], name)
  }

  /** The three header names are distinct, so a lookup by name finds each value. */
  lemma TrackingHeaderLookup(entityId: string, emailType: string)
    ensures var r := GetTrackingHeaders(entityId, emailType);
      && HeaderValue(r, EntityRefHeader) == Some(entityId)
      && HeaderValue(r, EmailTypeHeader) == Some(emailType)
      && HeaderValue(r, MailerHeader) == Some("Responsely")
  {
    var r := GetTrackingHeaders(entityId, emailType);
    assert r[1..][1..] == [r[2]];
    assert HeaderValue(r, MailerHeader) == HeaderValue(r[1..], MailerHeader);
    assert HeaderValue(r[1..], MailerHeader) == HeaderValue(r[1..][1..], MailerHeader);
    assert EntityRefHeader != EmailTypeHeader && EntityRefHeader != MailerHeader && EmailTypeHeader != MailerHeader;
  }
}
