/**
 * The backend deployment as an object: its tables are fields that the
 * mutations update in place, step by step in the order the handlers do. Each
 * method is proved to leave the result and the tables that the matching
 * function of `Conversations` describes, and to keep the invariant.
 */
module Backend {
  import opened Wrappers
  import opened Text
  import opened Conversations

  class Deployment {
    var conversations: map<ConversationId, Conversation>
    var nextId: nat
    var sessions: map<SessionId, ContactSession>
    var widgetSettings: seq<WidgetSettingsRow>
    var threads: map<string, seq<Message>>
    var threadCount: nat
    var jobs: seq<Job>

    /** The tables as one value. */
    function State(): Db
      reads this
    {
      Db(conversations, nextId, sessions, widgetSettings, threads, threadCount, jobs)
    }

    ghost predicate Valid()
      reads this
    {
      Conversations.Valid(State())
    }

    constructor(sessions: map<SessionId, ContactSession>, widgetSettings: seq<WidgetSettingsRow>)
      ensures Valid()
      ensures State() == Empty(sessions, widgetSettings)
    {
      this.conversations := map[];
      this.nextId := 0;
      this.sessions := sessions;
      this.widgetSettings := widgetSettings;
      this.threads := map[];
      this.threadCount := 0;
      this.jobs := [];
    }

    // ---------------------------------------------------------- index lookups

    /** The `by_thread_id` index scan followed by `.unique()`. */
    method FindByThread(t: string) returns (r: Result<Option<ConversationId>, Error>)
      ensures r == ByThread(State(), t)
    {
      var ids: seq<ConversationId> := [];
      var n := 0;
      while n < nextId
        invariant n <= nextId
        invariant ids == ThreadMatches(conversations, t, n)
      {
        if n in conversations && conversations[n].threadId == t {
          ids := [n] + ids;
        }
        n := n + 1;
      }
      if |ids| == 0 {
        r := Success(None);
      } else if |ids| == 1 {
        r := Success(Some(ids[0]));
      } else {
        r := Failure(NotUnique);
      }
    }

    /** The `by_organization_id` index scan of the widget settings followed by `.unique()`. */
    method FindGreeting(organizationId: string) returns (r: Result<Option<string>, Error>)
      ensures r == SettingsFor(State(), organizationId)
    {
      var greetings: seq<string> := [];
      var i := |widgetSettings|;
      while i > 0
        invariant 0 <= i <= |widgetSettings|
        invariant greetings == Greetings(widgetSettings[i..], organizationId)
      {
        i := i - 1;
        assert widgetSettings[i..][1..] == widgetSettings[i + 1..];
        if widgetSettings[i].organizationId == organizationId {
          greetings := [widgetSettings[i].greetMessage] + greetings;
        }
      }
      assert widgetSettings[0..] == widgetSettings;
      if |greetings| == 0 {
        r := Success(None);
      } else if |greetings| == 1 {
        r := Success(Some(greetings[0]));
      } else {
        r := Failure(NotUnique);
      }
    }

    // ---------------------------------------------------------- public functions

    method GetMany(sessionId: SessionId, numItems: nat, cursor: nat, now: int) returns (r: Result<Page, Error>)
      ensures r == Conversations.GetMany(State(), sessionId, numItems, cursor, now)
    {
      if sessionId !in sessions || sessions[sessionId].expiresAt < now {
        return Failure(InvalidSession);
      }
      var all := SessionIds(sessionId);
      var start := if cursor < |all| then cursor else |all|;
      var end := if start + numItems < |all| then start + numItems else |all|;
      var page := Summarize(all[start..end]);
      r := Success(Page(page, end == |all|, end));
    }

    /** The `by_contact_session_id` index in descending order: newest first. */
    method SessionIds(sessionId: SessionId) returns (all: seq<ConversationId>)
      ensures all == SessionConversations(conversations, sessionId, nextId)
    {
      all := [];
      var n := 0;
      while n < nextId
        invariant n <= nextId
        invariant all == SessionConversations(conversations, sessionId, n)
      {
        if n in conversations && conversations[n].contactSessionId == sessionId {
          all := [n] + all;
        }
        n := n + 1;
      }
    }

    /** Each row of a page with the newest message of its thread. */
    method Summarize(ids: seq<ConversationId>) returns (page: seq<ConversationSummary>)
      requires forall i :: 0 <= i < |ids| ==> ids[i] in conversations
      ensures page == Summaries(State(), ids)
    {
      page := [];
      var k := 0;
      while k < |ids|
        invariant k <= |ids|
        invariant |page| == k
        invariant forall j :: 0 <= j < k ==> page[j] == Summary(State(), ids[j])
      {
        var id := ids[k];
        var c := conversations[id];
        var lastMessage: Option<Message> := None;
        if c.threadId in threads && |threads[c.threadId]| > 0 {
          lastMessage := Some(threads[c.threadId][|threads[c.threadId]| - 1]);
        }
        page := page + [ConversationSummary(id, c.creationTime, c.status, c.organizationId, c.threadId, lastMessage)];
        k := k + 1;
      }
    }

    method GetOne(conversationId: ConversationId, sessionId: SessionId, now: int) returns (r: Result<ConversationView, Error>)
      ensures r == Conversations.GetOne(State(), conversationId, sessionId, now)
    {
      if sessionId !in sessions || sessions[sessionId].expiresAt < now {
        return Failure(InvalidSession);
      }
      if conversationId !in conversations {
        return Failure(ConversationNotFound);
      }
      var c := conversations[conversationId];
      if c.contactSessionId != sessionId {
        return Failure(IncorrectSession);
      }
      r := Success(ConversationView(conversationId, c.status, c.threadId));
    }

    method Create(organizationId: string, sessionId: SessionId, now: int) returns (r: Result<ConversationId, Error>)
      requires Valid()
      modifies this
      ensures Valid()
      ensures (r, State()) == Conversations.Create(old(State()), organizationId, sessionId, now)
    {
      if sessionId !in sessions || sessions[sessionId].expiresAt < now {
        return Failure(InvalidSession);
      }
      var settings := FindGreeting(organizationId);
      if settings.Failure? {
        return Failure(settings.error);
      }
      // The agent component creates the thread and saves the greeting to it.
      var t := ThreadName(threadCount);
      threadCount := threadCount + 1;
      threads := threads[t := [Message(Assistant, Greeting(settings.value))]];
      var id := nextId;
      nextId := nextId + 1;
      conversations := conversations[id := Conversation(now, t, organizationId, sessionId, Unresolved, None, None)];
      r := Success(id);
      CreatePreservesValid(old(State()), organizationId, sessionId, now);
    }

    method EscalateConversation(conversationId: ConversationId, sessionId: SessionId, now: int)
      returns (r: Result<EscalationOutcome, Error>)
      requires Valid()
      modifies this
      ensures Valid()
      ensures (r, State()) == Conversations.EscalateConversation(old(State()), conversationId, sessionId, now)
    {
      if sessionId !in sessions || sessions[sessionId].expiresAt < now {
        return Failure(InvalidSession);
      }
      if conversationId !in conversations {
        return Failure(ConversationNotFound);
      }
      var c := conversations[conversationId];
      if c.contactSessionId != sessionId {
        return Failure(IncorrectSession);
      }
      if c.status == Escalated {
        return Success(AlreadyEscalated);
      }
      conversations := conversations[conversationId :=
        c.(status := Escalated, escalatedAt := Some(now), escalationReason := Some(CustomerRequested))];
      threads := Append(threads, c.threadId, Message(Assistant, CustomerEscalationText));
      jobs := jobs + [SendEscalationEmailForConversation(conversationId)];
      r := Success(EscalationSucceeded);
      EscalateConversationPreservesValid(old(State()), conversationId, sessionId, now);
    }

    // ---------------------------------------------------------- internal functions

    method Escalate(t: string) returns (r: Result<(), Error>)
      requires Valid()
      modifies this
      ensures Valid()
      ensures (r, State()) == Conversations.Escalate(old(State()), t)
    {
      r := SetStatus(t, Escalated);
    }

    method Resolve(t: string) returns (r: Result<(), Error>)
      requires Valid()
      modifies this
      ensures Valid()
      ensures (r, State()) == Conversations.Resolve(old(State()), t)
    {
      r := SetStatus(t, Resolved);
    }

    /** The shared body of `escalate` and `resolve`: look the thread up, patch the status. */
    method SetStatus(t: string, status: Status) returns (r: Result<(), Error>)
      requires Valid()
      modifies this
      ensures Valid()
      ensures (r, State()) == SetStatusByThread(old(State()), t, status)
    {
      var found := FindByThread(t);
      if found.Failure? {
        return Failure(found.error);
      }
      if found.value.None? {
        return Failure(ConversationNotFound);
      }
      var id := found.value.value;
      conversations := conversations[id := conversations[id].(status := status)];
      r := Success(());
      SetStatusPreservesValid(old(State()), t, status);
    }

    method GetByThreadId(t: string) returns (r: Result<Option<Conversation>, Error>)
      ensures r == Conversations.GetByThreadId(State(), t)
    {
      var found := FindByThread(t);
      if found.Failure? {
        return Failure(found.error);
      }
      if found.value.None? {
        return Success(None);
      }
      r := Success(Some(conversations[found.value.value]));
    }

    method UpdateEscalationMetadata(conversationId: ConversationId, escalatedAt: int, reason: EscalationReason)
      returns (r: Result<(), Error>)
      requires Valid()
      modifies this
      ensures Valid()
      ensures (r, State()) == Conversations.UpdateEscalationMetadata(old(State()), conversationId, escalatedAt, reason)
    {
      if conversationId !in conversations {
        return Failure(NonexistentDocument);
      }
      var c := conversations[conversationId];
      conversations := conversations[conversationId := c.(escalatedAt := Some(escalatedAt), escalationReason := Some(reason))];
      r := Success(());
      UpdateEscalationMetadataPreservesValid(old(State()), conversationId, escalatedAt, reason);
    }

    // ---------------------------------------------------------- the AI tool

    /** The tool's handler; `scheduleFails` says whether scheduling the email throws. */
    method EscalateTool(threadId: Option<string>, scheduleFails: bool) returns (r: Result<string, Error>)
      requires Valid()
      modifies this
      ensures Valid()
      ensures (r, State()) == Conversations.EscalateTool(old(State()), threadId, scheduleFails)
    {
      if threadId.None? || threadId.value == "" {
        return Success(ToolMissingThread);
      }
      var t := threadId.value;
      ghost var db0 := State();
      var found := FindByThread(t);
      if found.Failure? {
        return Failure(found.error);
      }
      if found.value.None? {
        return Success(ToolNotFound);
      }
      var id := found.value.value;
      var c := conversations[id];
      assert Conversations.GetByThreadId(db0, t) == Success(Some(c));
      if c.status == Escalated {
        return Success(ToolAlreadyEscalated);
      }
      ToolEscalatedSteps(db0, t, scheduleFails);
      // The mutation finds the same conversation, so it does not throw here.
      var _ := Escalate(t);
      threads := Append(threads, t, Message(Assistant, AiEscalationText));
      if !scheduleFails {
        jobs := jobs + [SendEscalationEmail(id, c.organizationId, t)];
      }
      r := Success(ToolEscalated);
      EscalateToolPreservesValid(old(State()), threadId, scheduleFails);
    }
  }
}
