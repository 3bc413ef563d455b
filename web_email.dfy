/**
 * The dashboard's email helpers: the "From" address shown in the UI and the
 * `mailto:` link (section 2 of RFC 6068) that opens a reply pre-filled with the
 * conversation history.
 */
module WebEmail {
  import opened Wrappers
  import opened Text
  import UriComponent

  // ------------------------------------------------------------ display address

  /** Mailbox providers whose domains cannot be verified with the email sender. */
  const UnverifiedDomains: seq<string> := ["gmail.com", "yahoo.com", "outlook.com", "hotmail.com", "icloud.com"]

  const NoEmailText := "Your organization email"
  const VerifiedDomainSuffix := "@resend.dev (verified domain)"

  /**
   * The address the UI shows in the "From" field: a placeholder when none is
   * set, the local part at the sender's own domain when the second
   * `@`-separated piece is an unverified provider, the input otherwise.
   */
  function DisplayFromEmail(userEmail: Option<string>): (r: string)
    ensures userEmail.None? || userEmail == Some("") ==> r == NoEmailText
    ensures userEmail.Some? && userEmail.value != "" ==>
      r == userEmail.value || r == Split(userEmail.value, '@')[0] + VerifiedDomainSuffix
  {
    match userEmail
    case None => NoEmailText
    case Some(email) =>
      if email == "" then NoEmailText
      else
        var parts := Split(email, '@');
        if |parts| >= 2 && parts[1] != "" && parts[1] in UnverifiedDomains then parts[0] + VerifiedDomainSuffix
        else email
  }

  /**
   * An address whose domain is an unverified provider is shown at the
   * sender's domain; anything after a second `@` is ignored, as `split` does.
   */
  lemma DisplayFromUnverifiedDomain(local: string, domain: string, rest: string)
    requires '@' !in local && '@' !in domain
    requires domain in UnverifiedDomains
    requires rest == [] || rest[0] == '@'
    ensures DisplayFromEmail(Some(local + "@" + domain + rest)) == local + VerifiedDomainSuffix
  {
    SplitEmail(local, domain, rest);
  }

  /** The first two pieces of `local@domain...` are the local part and the domain. */
  lemma SplitEmail(local: string, domain: string, rest: string)
    requires '@' !in local && '@' !in domain
    requires rest == [] || rest[0] == '@'
    ensures var parts := Split(local + "@" + domain + rest, '@');
      |parts| >= 2 && parts[0] == local && parts[1] == domain
  {
    var email := local + "@" + domain + rest;
    assert email == local + ['@'] + (domain + rest);
    SplitAt(local, domain + rest, '@');
    if rest == [] {
      assert domain + rest == domain;
      SplitNoSeparator(domain, '@');
    } else {
      assert domain + rest == domain + ['@'] + rest[1..];
      SplitPrefix(domain, rest[1..], '@');
    }
  }

  /** Any other address is shown as it is. */
  lemma DisplayFromOtherDomain(local: string, domain: string, rest: string)
    requires '@' !in local && '@' !in domain
    requires domain !in UnverifiedDomains
    requires rest == [] || rest[0] == '@'
    ensures DisplayFromEmail(Some(local + "@" + domain + rest)) == local + "@" + domain + rest
  {
    SplitEmail(local, domain, rest);
  }

  /** Without any `@` there is no domain, and the input is shown as it is. */
  lemma DisplayFromNoDomain(email: string)
    requires email != [] && '@' !in email
    ensures DisplayFromEmail(Some(email)) == email
  {
    SplitNoSeparator(email, '@');
  }

  // ------------------------------------------------------------ mailto link

  datatype Role = User | Assistant

  datatype ChatMessage = ChatMessage(id: string, role: Role, content: string)

  /** `messages.find(msg => msg.role === "user")`. */
  function FirstUserMessage(messages: seq<ChatMessage>): (r: Option<nat>)
    ensures r.Some? ==> r.value < |messages| && messages[r.value].role == User
    ensures r.Some? ==> forall j :: 0 <= j < r.value ==> messages[j].role != User
    ensures r.None? ==> forall j :: 0 <= j < |messages| ==> messages[j].role != User
  {
    if messages == [] then None
    else if messages[0].role == User then Some(0)
    else
      match FirstUserMessage(messages[1..])
      case None => None
      case Some(i) => Some(i + 1)
  }

  const SubjectLimit := 50
  const DefaultSubject := "Re: Your support inquiry"

  /** "Re: " and the first 50 characters of the first customer message, "..." when cut. */
  function Subject(messages: seq<ChatMessage>): (r: string)
    ensures 4 <= |r| <= 4 + SubjectLimit + 3 && r[..4] == "Re: "
    ensures FirstUserMessage(messages).None? ==> r == DefaultSubject
  {
    match FirstUserMessage(messages)
    case None => DefaultSubject
    case Some(i) =>
      var content := messages[i].content;
      "Re: " + Substring(content, 0, SubjectLimit) + (if |content| > SubjectLimit then "..." else "")
  }

  lemma SubjectOfFirstUserMessage(messages: seq<ChatMessage>, i: nat)
    requires i < |messages| && messages[i].role == User
    requires forall j :: 0 <= j < i ==> messages[j].role != User
    ensures |messages[i].content| <= SubjectLimit ==> Subject(messages) == "Re: " + messages[i].content
    ensures |messages[i].content| > SubjectLimit ==>
      Subject(messages) == "Re: " + messages[i].content[..SubjectLimit] + "..."
    ensures |Subject(messages)| <= 4 + SubjectLimit + 3
  {
    assert messages[i].content[0..|messages[i].content|] == messages[i].content;
  }

  lemma SubjectWithoutUserMessage(messages: seq<ChatMessage>)
    requires forall j :: 0 <= j < |messages| ==> messages[j].role != User
    ensures Subject(messages) == DefaultSubject
  {
  }

  /** One history line: the customer's name for their messages, "Support" otherwise. */
  function HistoryLine(customerName: string, m: ChatMessage): string {
    (if m.role == User then customerName else "Support") + ": " + m.content
  }

  function HistoryLines(customerName: string, messages: seq<ChatMessage>): (lines: seq<string>)
    ensures |lines| == |messages|
    ensures forall i :: 0 <= i < |messages| ==> lines[i] == HistoryLine(customerName, messages[i])
  {
    seq(|messages|, i requires 0 <= i < |messages| => HistoryLine(customerName, messages[i]))
  }

  /** The lines joined by a blank line. */
  function History(customerName: string, messages: seq<ChatMessage>): (r: string)
    ensures messages == [] ==> r == ""
    ensures messages != [] ==> var first := HistoryLine(customerName, messages[0]);
      |first| <= |r| && r[..|first|] == first
  {
    Join(HistoryLines(customerName, messages), "\n\n")
  }

  const BodyOpening := ",\n\nThank you for reaching out to us. I'm following up on our conversation.\n\n--- Original Conversation ---\n"
  const BodyClosing := "\n--- End of Conversation ---\n\nBest regards,\nSupport Team"

  function Body(customerName: string, messages: seq<ChatMessage>): (r: string)
    ensures var opening := "Hi " + customerName + BodyOpening;
      && |opening| + |BodyClosing| <= |r|
      && r[..|opening|] == opening
      && r[|opening|..|r| - |BodyClosing|] == History(customerName, messages)
      && r[|r| - |BodyClosing|..] == BodyClosing
  {
    "Hi " + customerName + BodyOpening + History(customerName, messages) + BodyClosing
  }

  /**
   * The address goes in unencoded; subject and body go through
   * `encodeURIComponent`. A client recovers all three exactly, provided the
   * address has no "?".
   */
  function MailtoLink(customerEmail: string, customerName: string, messages: seq<ChatMessage>): (link: string)
    ensures '?' !in customerEmail ==>
      ParseMailto(link) == Some(MailtoFields(customerEmail, Subject(messages), Body(customerName, messages)))
  {
    var subject, body := Subject(messages), Body(customerName, messages);
    var link := "mailto:" + customerEmail + "?subject=" + UriComponent.Encode(subject) + "&body=" + UriComponent.Encode(body);
    if '?' in customerEmail then link
    else
      ParseMailtoOf(customerEmail, subject, body);
      link
  }

  lemma {:induction false} JoinAppend(a: seq<string>, b: seq<string>, sep: string)
    requires a != [] && b != []
    ensures Join(a + b, sep) == Join(a, sep) + sep + Join(b, sep)
  {
    if |a| == 1 {
      assert (a + b)[1..] == b;
    } else {
      assert (a + b)[1..] == a[1..] + b;
      JoinAppend(a[1..], b, sep);
    }
  }

  /**
   * The history of a longer conversation extends the history of its start:
   * lines appear once each, in message order, separated by a blank line.
   */
  lemma HistoryAppend(customerName: string, earlier: seq<ChatMessage>, later: seq<ChatMessage>)
    requires earlier != [] && later != []
    ensures History(customerName, earlier + later)
      == History(customerName, earlier) + "\n\n" + History(customerName, later)
  {
    assert HistoryLines(customerName, earlier + later)
      == HistoryLines(customerName, earlier) + HistoryLines(customerName, later);
    JoinAppend(HistoryLines(customerName, earlier), HistoryLines(customerName, later), "\n\n");
  }

  lemma HistorySingle(customerName: string, m: ChatMessage)
    ensures History(customerName, [m]) == HistoryLine(customerName, m)
  {
  }

  // ------------------------------------------------------------ reading a link back

  datatype MailtoFields = MailtoFields(address: string, subject: string, body: string)

  /** What a mail client reads from a `mailto:` link of this shape. */
  function ParseMailto(link: string): Option<MailtoFields> {
    if !StartsWith(link, "mailto:") then None
    else
      var pieces := Split(link[7..], '?');
      if |pieces| != 2 then None
      else
        match ParseQuery(pieces[1])
        case None => None
        case Some(fields) => Some(MailtoFields(pieces[0], fields.0, fields.1))
  }

  /** The decoded subject and body of a query `subject=...&body=...`. */
  function ParseQuery(query: string): Option<(string, string)> {
    var fields := Split(query, '&');
    if |fields| != 2 || !StartsWith(fields[0], "subject=") || !StartsWith(fields[1], "body=") then None
    else
      match UriComponent.Decode(fields[0][8..])
      case None => None
      case Some(subject) =>
        match UriComponent.Decode(fields[1][5..])
        case None => None
        case Some(body) => Some((subject, body))
  }

  lemma ParseQueryOf(subject: string, body: string)
    ensures ParseQuery("subject=" + UriComponent.Encode(subject) + "&body=" + UriComponent.Encode(body))
      == Some((subject, body))
  {
    UriComponent.EncodeHasNoDelimiters(subject);
    UriComponent.EncodeHasNoDelimiters(body);
    UriComponent.DecodeEncode(subject);
    UriComponent.DecodeEncode(body);
    ParseQueryFields(UriComponent.Encode(subject), UriComponent.Encode(body));
  }

  /** Two values without '&' come back as the two fields, each still to be decoded. */
  lemma ParseQueryFields(es: string, eb: string)
    requires '&' !in es && '&' !in eb
    ensures ParseQuery("subject=" + es + "&body=" + eb)
      == match (UriComponent.Decode(es), UriComponent.Decode(eb))
         case (Some(subject), Some(body)) => Some((subject, body))
         case _ => None
  {
    var first := "subject=" + es;
    var second := "body=" + eb;
    assert '&' !in first && '&' !in second;
    assert "subject=" + es + "&body=" + eb == first + ['&'] + second;
    SplitAt(first, second, '&');
    SplitNoSeparator(second, '&');
    assert first[8..] == es;
    assert second[5..] == eb;
  }

  lemma SplitLinkAddress(customerEmail: string, query: string)
    requires '?' !in customerEmail && '?' !in query
    ensures var link := "mailto:" + customerEmail + "?" + query;
      StartsWith(link, "mailto:") && Split(link[7..], '?') == [customerEmail, query]
  {
    var link := "mailto:" + customerEmail + "?" + query;
    assert link[7..] == customerEmail + ['?'] + query;
    SplitAt(customerEmail, query, '?');
    SplitNoSeparator(query, '?');
  }

  lemma ParseMailtoOf(customerEmail: string, subject: string, body: string)
    requires '?' !in customerEmail
    ensures ParseMailto("mailto:" + customerEmail + "?subject=" + UriComponent.Encode(subject)
      + "&body=" + UriComponent.Encode(body)) == Some(MailtoFields(customerEmail, subject, body))
  {
    var es, eb := UriComponent.Encode(subject), UriComponent.Encode(body);
    UriComponent.EncodeHasNoDelimiters(subject);
    UriComponent.EncodeHasNoDelimiters(body);
    QueryShape(customerEmail, es, eb);
    SplitLinkAddress(customerEmail, "subject=" + es + "&body=" + eb);
    ParseQueryOf(subject, body);
  }

  /** The link is the address and the query around one '?', and the query has no other. */
  lemma QueryShape(customerEmail: string, es: string, eb: string)
    requires '?' !in es && '?' !in eb
    ensures '?' !in "subject=" + es + "&body=" + eb
    ensures "mailto:" + customerEmail + "?subject=" + es + "&body=" + eb
      == "mailto:" + customerEmail + "?" + ("subject=" + es + "&body=" + eb)
  {
    assert "?subject=" == "?" + "subject=";
  }
}
