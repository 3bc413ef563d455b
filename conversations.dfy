/**
 * The conversation lifecycle of the backend, as values: the tables the
 * functions read and write, one function per query or mutation returning its
 * result and the new database, and the properties of those functions.
 *
 * A Convex mutation is a transaction: when it throws, none of its writes
 * happen, so every failing operation returns the database unchanged. Ids of
 * conversations come from a counter (insertion order is creation order), and
 * thread ids from a second counter standing for the agent component's thread
 * creation. `Date.now()` is the parameter `now`.
 */
module Conversations {
  import opened Wrappers
  import opened Text

  type ConversationId = nat
  type SessionId = nat

  datatype Status = Unresolved | Escalated | Resolved

  datatype EscalationReason = CustomerRequested | AiDetected

  /** A row of the conversations table, with the two escalation fields the mutations write. */
  datatype Conversation = Conversation(
    creationTime: int,
    threadId: string,
    organizationId: string,
    contactSessionId: SessionId,
    status: Status,
    escalatedAt: Option<int>,
    escalationReason: Option<EscalationReason>)

  datatype ContactSession = ContactSession(organizationId: string, expiresAt: int)

  datatype WidgetSettingsRow = WidgetSettingsRow(organizationId: string, greetMessage: string)

  datatype Role = User | Assistant

  datatype Message = Message(role: Role, content: string)

  /** The scheduled notification actions, as opaque records. */
  datatype Job =
    | SendEscalationEmailForConversation(conversationId: ConversationId)
    | SendEscalationEmail(conversationId: ConversationId, organizationId: string, threadId: string)

  datatype ErrorCode = Unauthorized | NotFound

  datatype Error =
    | ConvexError(code: ErrorCode, message: string)
    /** `.unique()` found more than one row. */
    | NotUnique
    /** `db.patch` on an id with no row. */
    | NonexistentDocument

  datatype Db = Db(
    conversations: map<ConversationId, Conversation>,
    nextId: nat,
    sessions: map<SessionId, ContactSession>,
    widgetSettings: seq<WidgetSettingsRow>,
    threads: map<string, seq<Message>>,
    threadCount: nat,
    jobs: seq<Job>)

  const InvalidSession := ConvexError(Unauthorized, "Invalid session")
  const IncorrectSession := ConvexError(Unauthorized, "Incorrect session")
  const ConversationNotFound := ConvexError(NotFound, "Conversation not found")

  const DefaultGreeting := "Hello, how can I help you today?"
  const CustomerEscalationText := "I've connected you with our support team. A team member will respond shortly."
  const AiEscalationText := "Conversation escalated to a human operator."

  const ToolMissingThread := "Missing thread ID"
  const ToolNotFound := "Conversation not found"
  const ToolAlreadyEscalated := "Conversation already escalated"
  const ToolEscalated := "Conversation escalated to a human operator"

  /** The database before any conversation exists. */
  function Empty(sessions: map<SessionId, ContactSession>, widgetSettings: seq<WidgetSettingsRow>): Db {
    Db(map[], 0, sessions, widgetSettings, map[], 0, [])
  }

  // ------------------------------------------------------------ invariant

  /** The id the agent component gives the n-th thread it creates. */
  function ThreadName(n: nat): string {
    "thread_" + Decimal(n)
  }

  lemma ThreadNameInjective(a: nat, b: nat)
    requires ThreadName(a) == ThreadName(b)
    ensures a == b
  {
    assert ThreadName(a)[7..] == Decimal(a);
    assert ThreadName(b)[7..] == Decimal(b);
    DecimalInjective(a, b);
  }

  predicate UniqueThreads(conversations: map<ConversationId, Conversation>) {
    forall i, j :: i in conversations && j in conversations && i != j ==>
      conversations[i].threadId != conversations[j].threadId
  }

  /**
   * Ids are below the counter, every conversation has its thread, no thread
   * number at or past the thread counter is in use, and no two conversations
   * share a thread.
   */
  ghost predicate Valid(db: Db) {
    && (forall id :: id in db.conversations ==> id < db.nextId)
    && (forall id :: id in db.conversations ==> db.conversations[id].threadId in db.threads)
    && (forall k: nat :: ThreadName(k) in db.threads ==> k < db.threadCount)
    && UniqueThreads(db.conversations)
  }

  lemma EmptyValid(sessions: map<SessionId, ContactSession>, widgetSettings: seq<WidgetSettingsRow>)
    ensures Valid(Empty(sessions, widgetSettings))
  {
  }

  // ------------------------------------------------------------ lookups

  /** A session is rejected when it is missing or `expiresAt < now`. */
  predicate SessionValid(db: Db, sessionId: SessionId, now: int) {
    sessionId in db.sessions && !(db.sessions[sessionId].expiresAt < now)
  }

  /** The three guards of `getOne` and `escalateConversation`, in their order. */
  function Authorize(db: Db, conversationId: ConversationId, sessionId: SessionId, now: int): (r: Result<Conversation, Error>)
    ensures !SessionValid(db, sessionId, now) ==> r == Failure(InvalidSession)
    ensures SessionValid(db, sessionId, now) && conversationId !in db.conversations ==> r == Failure(ConversationNotFound)
    ensures (SessionValid(db, sessionId, now) && conversationId in db.conversations
      && db.conversations[conversationId].contactSessionId != sessionId) ==> r == Failure(IncorrectSession)
    ensures r.Success? <==> (SessionValid(db, sessionId, now) && conversationId in db.conversations
      && db.conversations[conversationId].contactSessionId == sessionId)
    ensures r.Success? ==> r.value == db.conversations[conversationId]
  {
    if !SessionValid(db, sessionId, now) then Failure(InvalidSession)
    else if conversationId !in db.conversations then Failure(ConversationNotFound)
    else if db.conversations[conversationId].contactSessionId != sessionId then Failure(IncorrectSession)
    else Success(db.conversations[conversationId])
  }

  /** The ids below `n` of conversations on thread `t`, highest first. */
  function ThreadMatches(conversations: map<ConversationId, Conversation>, t: string, n: nat): (ids: seq<ConversationId>)
    ensures forall id :: id in ids <==> id < n && id in conversations && conversations[id].threadId == t
    ensures forall i :: 0 <= i < |ids| ==> ids[i] < n
    ensures forall i, j :: 0 <= i < j < |ids| ==> ids[i] > ids[j]
  {
    if n == 0 then []
    else
      var rest := ThreadMatches(conversations, t, n - 1);
      if n - 1 in conversations && conversations[n - 1].threadId == t then [n - 1] + rest else rest
  }

  /** Two matches would be two conversations on one thread. */
  lemma SharedThread(conversations: map<ConversationId, Conversation>, t: string, n: nat)
    ensures UniqueThreads(conversations) ==> |ThreadMatches(conversations, t, n)| <= 1
  {
    var ids := ThreadMatches(conversations, t, n);
    if |ids| >= 2 {
      assert ids[0] in ids && ids[1] in ids;
    }
  }

  /** `.withIndex("by_thread_id", ...).unique()`: none, the one row, or an error for several. */
  function ByThread(db: Db, t: string): (r: Result<Option<ConversationId>, Error>)
    ensures r.Success? && r.value.Some? ==> r.value.value in db.conversations && db.conversations[r.value.value].threadId == t
  {
    var ids := ThreadMatches(db.conversations, t, db.nextId);
    if |ids| == 0 then Success(None)
    else if |ids| == 1 then Success(Some(ids[0]))
    else Failure(NotUnique)
  }

  /** In a valid database the lookup never fails, and finds exactly the conversation on the thread. */
  lemma ByThreadExact(db: Db, t: string)
    requires Valid(db)
    ensures ByThread(db, t).Success?
    ensures ByThread(db, t).value.None? <==> forall id :: id in db.conversations ==> db.conversations[id].threadId != t
    ensures forall id :: id in db.conversations && db.conversations[id].threadId == t ==> ByThread(db, t) == Success(Some(id))
  {
    var ids := ThreadMatches(db.conversations, t, db.nextId);
    SharedThread(db.conversations, t, db.nextId);
    forall id | id in db.conversations && db.conversations[id].threadId == t
      ensures ByThread(db, t) == Success(Some(id))
    {
      assert id in ids;
      assert ids == [ids[0]];
    }
  }

  // ------------------------------------------------------------ public queries

  /** What `getOne` returns: nothing but the id, the status and the thread. */
  datatype ConversationView = ConversationView(id: ConversationId, status: Status, threadId: string)

  function GetOne(db: Db, conversationId: ConversationId, sessionId: SessionId, now: int): (r: Result<ConversationView, Error>)
    ensures r.Success? ==> && SessionValid(db, sessionId, now)
                           && conversationId in db.conversations
                           && db.conversations[conversationId].contactSessionId == sessionId
                           && r.value.id == conversationId
    ensures r.Failure? ==> r.error == InvalidSession || r.error == ConversationNotFound || r.error == IncorrectSession
  {
    match Authorize(db, conversationId, sessionId, now)
    case Failure(e) => Failure(e)
    case Success(c) => Success(ConversationView(conversationId, c.status, c.threadId))
  }

  lemma GetOneShowsOwnConversation(db: Db, conversationId: ConversationId, sessionId: SessionId, now: int)
    ensures GetOne(db, conversationId, sessionId, now).Success? <==> Authorize(db, conversationId, sessionId, now).Success?
    ensures GetOne(db, conversationId, sessionId, now).Failure? ==>
      GetOne(db, conversationId, sessionId, now).error == Authorize(db, conversationId, sessionId, now).error
    ensures GetOne(db, conversationId, sessionId, now).Success? ==>
      var c := db.conversations[conversationId];
      GetOne(db, conversationId, sessionId, now).value == ConversationView(conversationId, c.status, c.threadId)
  {
  }

  /** A `getMany` item; `lastMessage` is the newest message of the thread, if any. */
  datatype ConversationSummary = ConversationSummary(
    id: ConversationId,
    creationTime: int,
    status: Status,
    organizationId: string,
    threadId: string,
    lastMessage: Option<Message>)

  datatype Page = Page(page: seq<ConversationSummary>, isDone: bool, continueCursor: nat)

  /** The ids below `n` of the session's conversations, newest first. */
  function SessionConversations(conversations: map<ConversationId, Conversation>, sessionId: SessionId, n: nat): (ids: seq<ConversationId>)
    ensures forall id :: id in ids <==> id < n && id in conversations && conversations[id].contactSessionId == sessionId
    ensures forall i :: 0 <= i < |ids| ==> ids[i] < n && ids[i] in conversations && conversations[ids[i]].contactSessionId == sessionId
    ensures forall i, j :: 0 <= i < j < |ids| ==> ids[i] > ids[j]
  {
    if n == 0 then []
    else
      var rest := SessionConversations(conversations, sessionId, n - 1);
      if n - 1 in conversations && conversations[n - 1].contactSessionId == sessionId then [n - 1] + rest else rest
  }

  function LastMessage(threads: map<string, seq<Message>>, t: string): Option<Message> {
    if t in threads && |threads[t]| > 0 then Some(threads[t][|threads[t]| - 1]) else None
  }

  function Summary(db: Db, id: ConversationId): ConversationSummary
    requires id in db.conversations
  {
    var c := db.conversations[id];
    ConversationSummary(id, c.creationTime, c.status, c.organizationId, c.threadId, LastMessage(db.threads, c.threadId))
  }

  /** `getMany`: the cursor counts the items already returned. */
  function GetMany(db: Db, sessionId: SessionId, numItems: nat, cursor: nat, now: int): (r: Result<Page, Error>)
    ensures r.Failure? <==> !SessionValid(db, sessionId, now)
    ensures r.Failure? ==> r.error == InvalidSession
    ensures r.Success? ==> |r.value.page| <= numItems
  {
    if !SessionValid(db, sessionId, now) then Failure(InvalidSession)
    else
      var all := SessionConversations(db.conversations, sessionId, db.nextId);
      var start := if cursor < |all| then cursor else |all|;
      var end := if start + numItems < |all| then start + numItems else |all|;
      Success(Page(Summaries(db, all[start..end]), end == |all|, end))
  }

  /** One summary per id, in order. */
  function Summaries(db: Db, ids: seq<ConversationId>): (s: seq<ConversationSummary>)
    requires forall i :: 0 <= i < |ids| ==> ids[i] in db.conversations
    ensures |s| == |ids|
    ensures forall i :: 0 <= i < |ids| ==> s[i] == Summary(db, ids[i])
  {
    seq(|ids|, i requires 0 <= i < |ids| => Summary(db, ids[i]))
  }

  /**
   * `p` is the run of the session's conversations `all` (newest first) that
   * starts at offset `start`: each entry is the summary of the conversation
   * at the same offset, and the ids decrease.
   */
  ghost predicate PageAt(db: Db, sessionId: SessionId, all: seq<ConversationId>, start: nat, p: seq<ConversationSummary>) {
    && start + |p| <= |all|
    && (forall i :: 0 <= i < |p| ==>
      && p[i].id in db.conversations
      && db.conversations[p[i].id].contactSessionId == sessionId
      && p[i].id == all[start + i]
      && p[i] == Summary(db, p[i].id)
      && p[i].lastMessage == LastMessage(db.threads, p[i].threadId))
    && (forall i, j :: 0 <= i < j < |p| ==> p[i].id > p[j].id)
  }

  /**
   * A page holds at most `numItems` of the caller's own conversations, newest
   * first, each with the last message of its thread; the cursor moves past
   * them and the page is the last one exactly when it reaches the end.
   */
  lemma GetManyPage(db: Db, sessionId: SessionId, numItems: nat, cursor: nat, now: int)
    requires GetMany(db, sessionId, numItems, cursor, now).Success?
    ensures var r := GetMany(db, sessionId, numItems, cursor, now).value;
      var all := SessionConversations(db.conversations, sessionId, db.nextId);
      var start := if cursor < |all| then cursor else |all|;
      && |r.page| == (if start + numItems < |all| then numItems else |all| - start)
      && PageAt(db, sessionId, all, start, r.page)
      && r.continueCursor == start + |r.page|
      && (r.isDone <==> start + |r.page| == |all|)
  {
    var all := SessionConversations(db.conversations, sessionId, db.nextId);
    var start := if cursor < |all| then cursor else |all|;
    var end := if start + numItems < |all| then start + numItems else |all|;
    var p := Summaries(db, all[start..end]);
    assert GetMany(db, sessionId, numItems, cursor, now) == Success(Page(p, end == |all|, end));
    SummariesOfSlice(db, sessionId, all, start, end);
  }

  /** The summaries of a slice of newest-first ids of one session form the page at its start. */
  lemma SummariesOfSlice(db: Db, sessionId: SessionId, all: seq<ConversationId>, start: nat, end: nat)
    requires start <= end <= |all|
    requires forall i :: 0 <= i < |all| ==> all[i] in db.conversations && db.conversations[all[i]].contactSessionId == sessionId
    requires forall i, j :: 0 <= i < j < |all| ==> all[i] > all[j]
    ensures |Summaries(db, all[start..end])| == end - start
    ensures PageAt(db, sessionId, all, start, Summaries(db, all[start..end]))
  {
    var ids := all[start..end];
    var p := Summaries(db, ids);
    forall i | 0 <= i < |p|
      ensures p[i].id == all[start + i] && p[i] == Summary(db, all[start + i])
    {
      assert ids[i] == all[start + i];
    }
  }

  /** A page from the start that is large enough lists every conversation of the session. */
  lemma GetManyComplete(db: Db, sessionId: SessionId, numItems: nat, now: int, id: ConversationId)
    requires Valid(db) && SessionValid(db, sessionId, now)
    requires numItems >= db.nextId
    requires id in db.conversations && db.conversations[id].contactSessionId == sessionId
    ensures var r := GetMany(db, sessionId, numItems, 0, now);
      r.Success? && r.value.isDone && exists i :: 0 <= i < |r.value.page| && r.value.page[i].id == id
  {
    var all := SessionConversations(db.conversations, sessionId, db.nextId);
    SessionConversationsBound(db.conversations, sessionId, db.nextId);
    assert id in all;
    var i :| 0 <= i < |all| && all[i] == id;
    var p := GetMany(db, sessionId, numItems, 0, now).value.page;
    assert all[0..|all|] == all;
    assert |p| == |all|;
    assert p[i] == Summary(db, all[i]);
  }

  lemma {:induction false} SessionConversationsBound(conversations: map<ConversationId, Conversation>, sessionId: SessionId, n: nat)
    ensures |SessionConversations(conversations, sessionId, n)| <= n
  {
    if n > 0 {
      SessionConversationsBound(conversations, sessionId, n - 1);
    }
  }

  // ------------------------------------------------------------ public mutations

  /** The greeting of the organisation's widget settings; `.unique()` fails on duplicates. */
  function SettingsFor(db: Db, organizationId: string): (r: Result<Option<string>, Error>)
    ensures r.Success? && r.value.Some? ==> WidgetSettingsRow(organizationId, r.value.value) in db.widgetSettings
    ensures r.Success? && r.value.None? <==> forall row :: row in db.widgetSettings ==> row.organizationId != organizationId
    ensures r.Failure? <==> Duplicated(db.widgetSettings, organizationId)
    ensures r.Failure? ==> r.error == NotUnique
    ensures forall i :: OnlyRow(db.widgetSettings, organizationId, i) ==>
      r == Success(Some(db.widgetSettings[i].greetMessage))
  {
    var greetings := Greetings(db.widgetSettings, organizationId);
    GreetingsDuplicated(db.widgetSettings, organizationId);
    GreetingsOnlyRows(db.widgetSettings, organizationId);
    assert |greetings| > 0 ==> greetings[0] in greetings;
    assert forall row :: row in db.widgetSettings && row.organizationId == organizationId ==>
      row == WidgetSettingsRow(organizationId, row.greetMessage) && row.greetMessage in greetings;
    if |greetings| == 0 then Success(None)
    else if |greetings| == 1 then Success(Some(greetings[0]))
    else Failure(NotUnique)
  }

  /** The greetings of the organisation's rows, in table order. */
  function Greetings(rows: seq<WidgetSettingsRow>, organizationId: string): (greetings: seq<string>)
    ensures forall g :: g in greetings <==> WidgetSettingsRow(organizationId, g) in rows
  {
    if rows == [] then []
    else
      var rest := Greetings(rows[1..], organizationId);
      assert forall row :: row in rows <==> row == rows[0] || row in rows[1..];
      if rows[0].organizationId == organizationId then [rows[0].greetMessage] + rest else rest
  }

  /** Two rows of the table belong to the organisation. */
  predicate Duplicated(rows: seq<WidgetSettingsRow>, organizationId: string) {
    exists i, j :: 0 <= i < j < |rows| && rows[i].organizationId == organizationId && rows[j].organizationId == organizationId
  }

  /** Row `i` is the organisation's one and only row. */
  predicate OnlyRow(rows: seq<WidgetSettingsRow>, organizationId: string, i: int) {
    && 0 <= i < |rows| && rows[i].organizationId == organizationId
    && forall k :: 0 <= k < |rows| && rows[k].organizationId == organizationId ==> k == i
  }

  /** At least two greetings are collected exactly when the organisation has two rows. */
  lemma GreetingsDuplicated(rows: seq<WidgetSettingsRow>, organizationId: string)
    ensures |Greetings(rows, organizationId)| >= 2 <==> Duplicated(rows, organizationId)
  {
    if Duplicated(rows, organizationId) {
      DuplicatedGreetings(rows, organizationId);
    }
    if |Greetings(rows, organizationId)| >= 2 {
      var i, j := GreetingsDuplicate(rows, organizationId);
      DuplicatedAt(rows, organizationId, i, j);
    }
  }

  lemma {:induction false} DuplicatedGreetings(rows: seq<WidgetSettingsRow>, organizationId: string)
    requires Duplicated(rows, organizationId)
    ensures |Greetings(rows, organizationId)| >= 2
  {
    var rest := rows[1..];
    var i, j :| 0 <= i < j < |rows| && rows[i].organizationId == organizationId && rows[j].organizationId == organizationId;
    assert rest[j - 1] == rows[j];
    if i == 0 {
      assert Greetings(rows, organizationId) == [rows[0].greetMessage] + Greetings(rest, organizationId);
      assert WidgetSettingsRow(organizationId, rows[j].greetMessage) in rest;
      assert rows[j].greetMessage in Greetings(rest, organizationId);
    } else {
      assert rest[i - 1] == rows[i];
      DuplicatedGreetings(rest, organizationId);
    }
  }

  /** Two greetings come from two rows of the organisation, found here. */
  lemma {:induction false} GreetingsDuplicate(rows: seq<WidgetSettingsRow>, organizationId: string) returns (i: nat, j: nat)
    requires |Greetings(rows, organizationId)| >= 2
    ensures i < j < |rows| && rows[i].organizationId == organizationId && rows[j].organizationId == organizationId
  {
    var rest := rows[1..];
    var gr := Greetings(rest, organizationId);
    if rows[0].organizationId == organizationId {
      assert Greetings(rows, organizationId) == [rows[0].greetMessage] + gr;
      var k := GreetingRow(rest, organizationId, gr[0]);
      assert rows[k + 1] == rest[k];
      i, j := 0, k + 1;
    } else {
      assert Greetings(rows, organizationId) == gr;
      var i', j' := GreetingsDuplicate(rest, organizationId);
      assert rows[i' + 1] == rest[i'] && rows[j' + 1] == rest[j'];
      i, j := i' + 1, j' + 1;
    }
  }

  lemma DuplicatedAt(rows: seq<WidgetSettingsRow>, organizationId: string, i: nat, j: nat)
    requires i < j < |rows| && rows[i].organizationId == organizationId && rows[j].organizationId == organizationId
    ensures Duplicated(rows, organizationId)
  {
  }

  /** The position of a row that contributed a greeting. */
  lemma GreetingRow(rows: seq<WidgetSettingsRow>, organizationId: string, g: string) returns (k: nat)
    requires g in Greetings(rows, organizationId)
    ensures k < |rows| && rows[k] == WidgetSettingsRow(organizationId, g)
  {
    assert WidgetSettingsRow(organizationId, g) in rows;
    k :| 0 <= k < |rows| && rows[k] == WidgetSettingsRow(organizationId, g);
  }

  /** Without a row for the organisation no greeting is collected. */
  lemma {:induction false} GreetingsNone(rows: seq<WidgetSettingsRow>, organizationId: string)
    requires forall k :: 0 <= k < |rows| ==> rows[k].organizationId != organizationId
    ensures Greetings(rows, organizationId) == []
  {
    if rows != [] {
      assert forall k :: 0 <= k < |rows[1..]| ==> rows[1..][k] == rows[k + 1];
      GreetingsNone(rows[1..], organizationId);
    }
  }

  /** The organisation's only row gives exactly its greeting. */
  lemma {:induction false} GreetingsOnlyRow(rows: seq<WidgetSettingsRow>, organizationId: string, i: int)
    requires OnlyRow(rows, organizationId, i)
    ensures Greetings(rows, organizationId) == [rows[i].greetMessage]
  {
    var rest := rows[1..];
    if i == 0 {
      assert forall k :: 0 <= k < |rest| ==> rest[k] == rows[k + 1];
      GreetingsNone(rest, organizationId);
    } else {
      assert rows[0].organizationId != organizationId;
      forall k | 0 <= k < |rest| && rest[k].organizationId == organizationId
        ensures k == i - 1
      {
        assert rows[k + 1] == rest[k];
      }
      GreetingsOnlyRow(rest, organizationId, i - 1);
    }
  }

  lemma GreetingsOnlyRows(rows: seq<WidgetSettingsRow>, organizationId: string)
    ensures forall i :: OnlyRow(rows, organizationId, i) ==> Greetings(rows, organizationId) == [rows[i].greetMessage]
  {
    forall i | OnlyRow(rows, organizationId, i)
      ensures Greetings(rows, organizationId) == [rows[i].greetMessage]
    {
      GreetingsOnlyRow(rows, organizationId, i);
    }
  }

  /** `widgetSettings?.greetMessage || default`: a missing or empty greeting falls back. */
  function Greeting(greetMessage: Option<string>): (g: string)
    ensures g != ""
    ensures greetMessage.Some? && greetMessage.value != "" ==> g == greetMessage.value
    ensures greetMessage.None? || greetMessage == Some("") ==> g == DefaultGreeting
  {
    match greetMessage
    case Some(m) => if m == "" then DefaultGreeting else m
    case None => DefaultGreeting
  }

  /** `create`: a new unresolved conversation on a fresh thread holding the greeting. */
  function Create(db: Db, organizationId: string, sessionId: SessionId, now: int): (res: (Result<ConversationId, Error>, Db))
    ensures res.0.Failure? ==> res.1 == db
    ensures res.0.Success? ==>
      && res.0.value == db.nextId && res.0.value in res.1.conversations
      && res.1.conversations[res.0.value].status == Unresolved
      && res.1.conversations[res.0.value].contactSessionId == sessionId
      && res.1.nextId == db.nextId + 1
    ensures res.1.sessions == db.sessions && res.1.jobs == db.jobs
  {
    if !SessionValid(db, sessionId, now) then (Failure(InvalidSession), db)
    else
      match SettingsFor(db, organizationId)
      case Failure(e) => (Failure(e), db)
      case Success(greetMessage) =>
        var t := ThreadName(db.threadCount);
        var id := db.nextId;
        var row := Conversation(now, t, organizationId, sessionId, Unresolved, None, None);
        (Success(id), db.(
          conversations := db.conversations[id := row],
          nextId := id + 1,
          threads := db.threads[t := [Message(Assistant, Greeting(greetMessage))]],
          threadCount := db.threadCount + 1))
  }

  /** A new conversation: unresolved, the caller's session, the given organisation, a fresh thread with one greeting. */
  lemma CreateEffects(db: Db, organizationId: string, sessionId: SessionId, now: int)
    requires Valid(db)
    requires Create(db, organizationId, sessionId, now).0.Success?
    ensures var (r, db') := Create(db, organizationId, sessionId, now);
      && r.value !in db.conversations
      && db'.conversations.Keys == db.conversations.Keys + {r.value}
      && (forall id :: id in db.conversations ==> db'.conversations[id] == db.conversations[id])
      && var c := db'.conversations[r.value];
      && c.status == Unresolved && c.contactSessionId == sessionId
      && c.organizationId == organizationId && c.creationTime == now
      && c.escalatedAt.None? && c.escalationReason.None?
      && c.threadId !in db.threads
      && db'.threads == db.threads[c.threadId := [Message(Assistant, Greeting(SettingsFor(db, organizationId).value))]]
      && db'.jobs == db.jobs && db'.sessions == db.sessions
  {
    assert ThreadName(db.threadCount) in db.threads ==> db.threadCount < db.threadCount;
  }

  /** `create` fails, changing nothing, only for a bad session or duplicated widget settings. */
  lemma CreateFailures(db: Db, organizationId: string, sessionId: SessionId, now: int)
    ensures var (r, db') := Create(db, organizationId, sessionId, now);
      && (r.Failure? ==> db' == db)
      && (r == Failure(InvalidSession) <==> !SessionValid(db, sessionId, now))
      && (r.Failure? <==> !SessionValid(db, sessionId, now) || Duplicated(db.widgetSettings, organizationId))
      && (r.Failure? && SessionValid(db, sessionId, now) ==> r == Failure(NotUnique))
  {
  }

  /** The two results of `escalateConversation`: `{alreadyEscalated: true}` and `{success: true}`. */
  datatype EscalationOutcome = AlreadyEscalated | EscalationSucceeded

  /** Appends one message to a thread's log. */
  function Append(threads: map<string, seq<Message>>, t: string, m: Message): map<string, seq<Message>> {
    threads[t := (if t in threads then threads[t] else []) + [m]]
  }

  function EscalateConversation(db: Db, conversationId: ConversationId, sessionId: SessionId, now: int): (res: (Result<EscalationOutcome, Error>, Db))
    ensures res.0.Failure? || res.0 == Success(AlreadyEscalated) ==> res.1 == db
    ensures res.0 == Success(EscalationSucceeded) ==>
      && conversationId in db.conversations && conversationId in res.1.conversations
      && db.conversations[conversationId].status != Escalated
      && res.1.conversations[conversationId].status == Escalated
      && |res.1.jobs| == |db.jobs| + 1
    ensures res.1.sessions == db.sessions && res.1.nextId == db.nextId
  {
    match Authorize(db, conversationId, sessionId, now)
    case Failure(e) => (Failure(e), db)
    case Success(c) =>
      if c.status == Escalated then (Success(AlreadyEscalated), db)
      else
        var patched := c.(status := Escalated, escalatedAt := Some(now), escalationReason := Some(CustomerRequested));
        (Success(EscalationSucceeded), db.(
          conversations := db.conversations[conversationId := patched],
          threads := Append(db.threads, c.threadId, Message(Assistant, CustomerEscalationText)),
          jobs := db.jobs + [SendEscalationEmailForConversation(conversationId)]))
  }

  /** Nothing is written unless all three guards pass; a failure is the first guard that fails. */
  lemma EscalateConversationGuards(db: Db, conversationId: ConversationId, sessionId: SessionId, now: int)
    ensures var (r, db') := EscalateConversation(db, conversationId, sessionId, now);
      && (Authorize(db, conversationId, sessionId, now).Failure? ==>
        r == Failure(Authorize(db, conversationId, sessionId, now).error) && db' == db)
      && (r.Failure? ==> db' == db)
  {
  }

  /** On an escalated conversation the call reports it and changes nothing. */
  lemma AlreadyEscalatedIsNoOp(db: Db, conversationId: ConversationId, sessionId: SessionId, now: int)
    requires Authorize(db, conversationId, sessionId, now).Success?
    requires db.conversations[conversationId].status == Escalated
    ensures EscalateConversation(db, conversationId, sessionId, now) == (Success(AlreadyEscalated), db)
  {
  }

  /**
   * Otherwise the row gets the status, the time and the reason and nothing
   * else; the thread gets exactly one message; the queue gets exactly one job.
   */
  lemma EscalateConversationEffects(db: Db, conversationId: ConversationId, sessionId: SessionId, now: int)
    requires Valid(db)
    requires Authorize(db, conversationId, sessionId, now).Success?
    requires db.conversations[conversationId].status != Escalated
    ensures var (r, db') := EscalateConversation(db, conversationId, sessionId, now);
      var c := db.conversations[conversationId];
      && r == Success(EscalationSucceeded)
      && db'.conversations == db.conversations[conversationId :=
        c.(status := Escalated, escalatedAt := Some(now), escalationReason := Some(CustomerRequested))]
      && db'.threads.Keys == db.threads.Keys
      && db'.threads[c.threadId] == db.threads[c.threadId] + [Message(Assistant, CustomerEscalationText)]
      && (forall t :: t in db.threads && t != c.threadId ==> db'.threads[t] == db.threads[t])
      && db'.jobs == db.jobs + [SendEscalationEmailForConversation(conversationId)]
      && db'.sessions == db.sessions && db'.nextId == db.nextId
  {
  }

  /** The guard only looks for `escalated`: a resolved conversation is reopened. */
  lemma ResolvedIsEscalatedAgain(db: Db, conversationId: ConversationId, sessionId: SessionId, now: int)
    requires Authorize(db, conversationId, sessionId, now).Success?
    requires db.conversations[conversationId].status == Resolved
    ensures var (r, db') := EscalateConversation(db, conversationId, sessionId, now);
      r == Success(EscalationSucceeded) && db'.conversations[conversationId].status == Escalated
  {
  }

  /** A session whose expiry is exactly `now` is still accepted. */
  lemma SessionExpiringNowAccepted(db: Db, sessionId: SessionId, now: int)
    requires sessionId in db.sessions && db.sessions[sessionId].expiresAt == now
    ensures SessionValid(db, sessionId, now)
    ensures !SessionValid(db, sessionId, now + 1)
  {
  }

  /** Every public entry point turns a missing or expired session away, changing nothing. */
  lemma InvalidSessionRejected(db: Db, sessionId: SessionId, now: int, conversationId: ConversationId,
                               organizationId: string, numItems: nat, cursor: nat)
    requires !SessionValid(db, sessionId, now)
    ensures GetMany(db, sessionId, numItems, cursor, now) == Failure(InvalidSession)
    ensures GetOne(db, conversationId, sessionId, now) == Failure(InvalidSession)
    ensures Create(db, organizationId, sessionId, now) == (Failure(InvalidSession), db)
    ensures EscalateConversation(db, conversationId, sessionId, now) == (Failure(InvalidSession), db)
  {
  }

  // ------------------------------------------------------------ internal functions

  /** The lookup by thread finds one conversation. */
  predicate Found(db: Db, t: string) {
    ByThread(db, t).Success? && ByThread(db, t).value.Some?
  }

  /** Conversation `id` is on thread `t` and has the given status. */
  predicate FoundNow(db: Db, id: ConversationId, t: string, status: Status) {
    id in db.conversations && db.conversations[id].threadId == t && db.conversations[id].status == status
  }

  /** Sets the status of the conversation on thread `t`, or fails with NOT_FOUND. */
  function SetStatusByThread(db: Db, t: string, status: Status): (res: (Result<(), Error>, Db))
    ensures res.0.Failure? ==> res.1 == db
    ensures res.0.Success? ==> Found(db, t) && FoundNow(res.1, ByThread(db, t).value.value, t, status)
    ensures res.1.conversations.Keys == db.conversations.Keys
    ensures res.1.threads == db.threads && res.1.jobs == db.jobs && res.1.sessions == db.sessions
  {
    match ByThread(db, t)
    case Failure(e) => (Failure(e), db)
    case Success(None) => (Failure(ConversationNotFound), db)
    case Success(Some(id)) =>
      (Success(()), db.(conversations := db.conversations[id := db.conversations[id].(status := status)]))
  }

  /** The internal `escalate` mutation. */
  function Escalate(db: Db, t: string): (res: (Result<(), Error>, Db))
    ensures res.0.Failure? ==> res.1 == db
    ensures res.0.Success? ==> Found(db, t) && FoundNow(res.1, ByThread(db, t).value.value, t, Escalated)
  {
    SetStatusByThread(db, t, Escalated)
  }

  /** The internal `resolve` mutation. */
  function Resolve(db: Db, t: string): (res: (Result<(), Error>, Db))
    ensures res.0.Failure? ==> res.1 == db
    ensures res.0.Success? ==> Found(db, t) && FoundNow(res.1, ByThread(db, t).value.value, t, Resolved)
  {
    SetStatusByThread(db, t, Resolved)
  }

  /**
   * On success only the status of the conversation on the thread changes: its
   * escalation time and reason stay as they were. Without such a conversation
   * the call fails with NOT_FOUND and changes nothing.
   */
  lemma SetStatusEffects(db: Db, t: string, status: Status)
    requires Valid(db)
    ensures var (r, db') := SetStatusByThread(db, t, status);
      && ((forall id :: id in db.conversations ==> db.conversations[id].threadId != t) ==>
        r == Failure(ConversationNotFound) && db' == db)
      && (forall id :: id in db.conversations && db.conversations[id].threadId == t ==>
        r == Success(()) && db' == db.(conversations := db.conversations[id := db.conversations[id].(status := status)]))
  {
    ByThreadExact(db, t);
  }

  /** Escalating or resolving twice gives the same database as doing it once. */
  lemma SetStatusIdempotent(db: Db, t: string, status: Status)
    requires Valid(db)
    ensures var (r, db') := SetStatusByThread(db, t, status);
      r.Success? ==> SetStatusByThread(db', t, status) == (Success(()), db')
  {
    var (r, db') := SetStatusByThread(db, t, status);
    ByThreadExact(db, t);
    if r.Success? {
      var id := ByThread(db, t).value.value;
      SetStatusPreservesValid(db, t, status);
      ByThreadExact(db', t);
      assert db'.conversations[id := db'.conversations[id].(status := status)] == db'.conversations;
    }
  }

  lemma SetStatusPreservesValid(db: Db, t: string, status: Status)
    requires Valid(db)
    ensures Valid(SetStatusByThread(db, t, status).1)
  {
  }

  /** `getByThreadId`: the row, null when none, an error for duplicates. */
  function GetByThreadId(db: Db, t: string): (r: Result<Option<Conversation>, Error>)
    ensures r.Failure? ==> r.error == NotUnique
    ensures r.Success? && r.value.Some? ==> r.value.value.threadId == t && r.value.value in db.conversations.Values
  {
    match ByThread(db, t)
    case Failure(e) => Failure(e)
    case Success(None) => Success(None)
    case Success(Some(id)) => Success(Some(db.conversations[id]))
  }

  lemma GetByThreadIdExact(db: Db, t: string)
    requires Valid(db)
    ensures (forall id :: id in db.conversations ==> db.conversations[id].threadId != t) ==>
      GetByThreadId(db, t) == Success(None)
    ensures forall id :: id in db.conversations && db.conversations[id].threadId == t ==>
      GetByThreadId(db, t) == Success(Some(db.conversations[id]))
  {
    ByThreadExact(db, t);
  }

  /** `get`: the row with the id, or null. */
  function Get(db: Db, conversationId: ConversationId): (r: Option<Conversation>)
    ensures r.Some? <==> conversationId in db.conversations
    ensures r.Some? ==> r.value == db.conversations[conversationId]
  {
    if conversationId in db.conversations then Some(db.conversations[conversationId]) else None
  }

  /** `updateEscalationMetadata`: patches the time and the reason only. */
  function UpdateEscalationMetadata(db: Db, conversationId: ConversationId, escalatedAt: int, reason: EscalationReason): (res: (Result<(), Error>, Db))
    ensures res.0.Failure? <==> conversationId !in db.conversations
    ensures res.0.Failure? ==> res.0.error == NonexistentDocument && res.1 == db
    ensures res.0.Success? ==>
      && conversationId in res.1.conversations
      && res.1.conversations[conversationId].escalatedAt == Some(escalatedAt)
      && res.1.conversations[conversationId].escalationReason == Some(reason)
      && res.1.conversations[conversationId].status == db.conversations[conversationId].status
  {
    if conversationId !in db.conversations then (Failure(NonexistentDocument), db)
    else
      var c := db.conversations[conversationId];
      (Success(()), db.(conversations := db.conversations[conversationId :=
        c.(escalatedAt := Some(escalatedAt), escalationReason := Some(reason))]))
  }

  lemma UpdateEscalationMetadataEffects(db: Db, conversationId: ConversationId, escalatedAt: int, reason: EscalationReason)
    ensures var (r, db') := UpdateEscalationMetadata(db, conversationId, escalatedAt, reason);
      && (r.Success? <==> conversationId in db.conversations)
      && (r.Failure? ==> db' == db)
      && (r.Success? ==>
        var c := db.conversations[conversationId];
        var c' := db'.conversations[conversationId];
        && db'.conversations.Keys == db.conversations.Keys
        && c'.escalatedAt == Some(escalatedAt) && c'.escalationReason == Some(reason)
        && c'.status == c.status && c'.threadId == c.threadId
        && c'.organizationId == c.organizationId && c'.contactSessionId == c.contactSessionId
        && c'.creationTime == c.creationTime
        && (forall id :: id in db.conversations && id != conversationId ==> db'.conversations[id] == db.conversations[id])
        && db'.threads == db.threads && db'.jobs == db.jobs)
  {
  }

  // ------------------------------------------------------------ the AI tool

  /**
   * The `escalateConversation` tool. It is an action: its query, its mutation,
   * its message and its scheduling are separate steps. `scheduleFails` says
   * whether scheduling the email throws, which the handler catches.
   */
  function EscalateTool(db: Db, threadId: Option<string>, scheduleFails: bool): (res: (Result<string, Error>, Db))
    ensures res.0 != Success(ToolEscalated) ==> res.1 == db
    ensures res.0 == Success(ToolEscalated) ==>
      && threadId.Some? && threadId.value != ""
      && Found(db, threadId.value)
      && db.conversations[ByThread(db, threadId.value).value.value].status != Escalated
      && FoundNow(res.1, ByThread(db, threadId.value).value.value, threadId.value, Escalated)
      && |res.1.jobs| == |db.jobs| + (if scheduleFails then 0 else 1)
    ensures res.1.sessions == db.sessions && res.1.nextId == db.nextId
    ensures res.1.conversations.Keys == db.conversations.Keys
  {
    if threadId.None? || threadId.value == "" then (Success(ToolMissingThread), db)
    else
      var t := threadId.value;
      match GetByThreadId(db, t)
      case Failure(e) => (Failure(e), db)
      case Success(None) => (Success(ToolNotFound), db)
      case Success(Some(c)) =>
        if c.status == Escalated then (Success(ToolAlreadyEscalated), db)
        else
          match Escalate(db, t)
          case (Failure(e), db1) => (Failure(e), db1)
          case (Success(_), db1) =>
            var db2 := db1.(threads := Append(db1.threads, t, Message(Assistant, AiEscalationText)));
            var id := ByThread(db, t).value.value;
            if scheduleFails then (Success(ToolEscalated), db2)
            else (Success(ToolEscalated), db2.(jobs := db2.jobs + [SendEscalationEmail(id, c.organizationId, t)]))
  }

  /** The tool's escalating path, step by step: the status, then the message, then the job. */
  lemma ToolEscalatedSteps(db: Db, t: string, scheduleFails: bool)
    requires t != "" && Found(db, t)
    requires db.conversations[ByThread(db, t).value.value].status != Escalated
    ensures var id := ByThread(db, t).value.value;
      var db1 := Escalate(db, t).1;
      var db2 := db1.(threads := Append(db1.threads, t, Message(Assistant, AiEscalationText)));
      && Escalate(db, t).0.Success?
      && EscalateTool(db, Some(t), scheduleFails) == (Success(ToolEscalated),
        if scheduleFails then db2
        else db2.(jobs := db2.jobs + [SendEscalationEmail(id, db.conversations[id].organizationId, t)]))
  {
  }

  /** Without a thread id, a conversation, or with the conversation escalated, the tool writes nothing. */
  lemma ToolEarlyReturns(db: Db, threadId: Option<string>, scheduleFails: bool)
    requires Valid(db)
    ensures threadId.None? || threadId == Some("") ==>
      EscalateTool(db, threadId, scheduleFails) == (Success(ToolMissingThread), db)
    ensures (threadId.Some? && threadId.value != ""
      && (forall id :: id in db.conversations ==> db.conversations[id].threadId != threadId.value)) ==>
      EscalateTool(db, threadId, scheduleFails) == (Success(ToolNotFound), db)
    ensures threadId.Some? && threadId.value != "" ==>
      forall id :: (id in db.conversations && db.conversations[id].threadId == threadId.value
        && db.conversations[id].status == Escalated) ==>
      EscalateTool(db, threadId, scheduleFails) == (Success(ToolAlreadyEscalated), db)
  {
    if threadId.Some? && threadId.value != "" {
      GetByThreadIdExact(db, threadId.value);
    }
  }

  /**
   * On a conversation that is not escalated the tool sets the status only
   * (the escalation time and reason keep their values), appends its one
   * message, and queues one email job unless scheduling fails; either way it
   * reports success.
   */
  lemma ToolEscalates(db: Db, id: ConversationId, scheduleFails: bool)
    requires Valid(db)
    requires id in db.conversations && db.conversations[id].status != Escalated
    requires db.conversations[id].threadId != ""
    ensures var c := db.conversations[id];
      var (r, db') := EscalateTool(db, Some(c.threadId), scheduleFails);
      && r == Success(ToolEscalated)
      && db'.conversations == db.conversations[id := c.(status := Escalated)]
      && db'.threads == Append(db.threads, c.threadId, Message(Assistant, AiEscalationText))
      && db'.jobs == (if scheduleFails then db.jobs else db.jobs + [SendEscalationEmail(id, c.organizationId, c.threadId)])
      && db'.conversations[id].escalatedAt == c.escalatedAt
      && db'.conversations[id].escalationReason == c.escalationReason
      && db'.sessions == db.sessions && db'.nextId == db.nextId
  {
    var t := db.conversations[id].threadId;
    GetByThreadIdExact(db, t);
    ByThreadExact(db, t);
    SetStatusEffects(db, t, Escalated);
  }

  // ------------------------------------------------------------ preservation

  lemma CreatePreservesValid(db: Db, organizationId: string, sessionId: SessionId, now: int)
    requires Valid(db)
    ensures Valid(Create(db, organizationId, sessionId, now).1)
  {
    var (r, db') := Create(db, organizationId, sessionId, now);
    if r.Success? {
      var t := ThreadName(db.threadCount);
      assert t in db.threads ==> db.threadCount < db.threadCount;
      forall k: nat | ThreadName(k) in db'.threads
        ensures k < db'.threadCount
      {
        if ThreadName(k) == t {
          ThreadNameInjective(k, db.threadCount);
        }
      }
    }
  }

  lemma EscalateConversationPreservesValid(db: Db, conversationId: ConversationId, sessionId: SessionId, now: int)
    requires Valid(db)
    ensures Valid(EscalateConversation(db, conversationId, sessionId, now).1)
  {
  }

  lemma UpdateEscalationMetadataPreservesValid(db: Db, conversationId: ConversationId, escalatedAt: int, reason: EscalationReason)
    requires Valid(db)
    ensures Valid(UpdateEscalationMetadata(db, conversationId, escalatedAt, reason).1)
  {
  }

  lemma EscalateToolPreservesValid(db: Db, threadId: Option<string>, scheduleFails: bool)
    requires Valid(db)
    ensures Valid(EscalateTool(db, threadId, scheduleFails).1)
  {
    if threadId.Some? && threadId.value != "" {
      SetStatusPreservesValid(db, threadId.value, Escalated);
    }
  }

  // ------------------------------------------------------------ both paths

  /**
   * The customer's button and the AI tool on the same conversation, in either
   * order: the second finds it escalated, so there is one acknowledgement
   * message and one email job in all.
   */
  lemma CustomerThenTool(db: Db, conversationId: ConversationId, sessionId: SessionId, now: int, scheduleFails: bool)
    requires Valid(db)
    requires Authorize(db, conversationId, sessionId, now).Success?
    requires db.conversations[conversationId].status != Escalated
    requires db.conversations[conversationId].threadId != ""
    ensures var t := db.conversations[conversationId].threadId;
      var first := EscalateConversation(db, conversationId, sessionId, now);
      var second := EscalateTool(first.1, Some(t), scheduleFails);
      && first.0 == Success(EscalationSucceeded) && second == (Success(ToolAlreadyEscalated), first.1)
      && |first.1.jobs| == |db.jobs| + 1
      && |first.1.threads[t]| == |db.threads[t]| + 1
  {
    var t := db.conversations[conversationId].threadId;
    var db1 := EscalateConversation(db, conversationId, sessionId, now).1;
    EscalateConversationEffects(db, conversationId, sessionId, now);
    EscalateConversationPreservesValid(db, conversationId, sessionId, now);
    assert db1.conversations[conversationId].threadId == t;
    assert db1.conversations[conversationId].status == Escalated;
    ToolEarlyReturns(db1, Some(t), scheduleFails);
  }

  lemma ToolThenCustomer(db: Db, conversationId: ConversationId, sessionId: SessionId, now: int)
    requires Valid(db)
    requires Authorize(db, conversationId, sessionId, now).Success?
    requires db.conversations[conversationId].status != Escalated
    requires db.conversations[conversationId].threadId != ""
    ensures var t := db.conversations[conversationId].threadId;
      var first := EscalateTool(db, Some(t), false);
      var second := EscalateConversation(first.1, conversationId, sessionId, now);
      && first.0 == Success(ToolEscalated) && second == (Success(AlreadyEscalated), first.1)
      && |first.1.jobs| == |db.jobs| + 1
      && |first.1.threads[t]| == |db.threads[t]| + 1
  {
    var t := db.conversations[conversationId].threadId;
    ToolEscalates(db, conversationId, false);
    var db1 := EscalateTool(db, Some(t), false).1;
    assert db1.conversations[conversationId].status == Escalated;
    assert Authorize(db1, conversationId, sessionId, now).Success?;
    AlreadyEscalatedIsNoOp(db1, conversationId, sessionId, now);
    assert |db1.jobs| == |db.jobs| + 1;
    assert t in db.threads;
    assert |db1.threads[t]| == |db.threads[t]| + 1;
    var r1 := EscalateTool(db, Some(t), false).0;
    assert r1 == Success(ToolEscalated);
    assert EscalateConversation(db1, conversationId, sessionId, now) == (Success(AlreadyEscalated), db1);
  }
}
