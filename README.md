# Responsely core in Dafny

Responsely is a customer-support platform: a website widget lets an anonymous
visitor (identified by a contact session) chat with an AI agent, and the
conversation can be escalated to a human operator by the visitor or by the AI.
This project models, and proves properties of, three parts of it:

1. **Conversation lifecycle** (Convex backend). `Conversations` holds the
   tables as one value (`Db`) and one function per query and mutation, each
   returning its result and the new tables. `Backend.Deployment` is the same
   deployment as an object whose fields the mutations update step by step;
   each method is proved to produce exactly what the matching function says
   and to keep the invariant `Conversations.Valid`: ids below the counter,
   every conversation has its thread, thread ids are fresh, and no two
   conversations share a thread.
2. **Email string helpers**. `EmailUtils` covers the backend's sender
   formatting, configuration defaults, HTML escaping, truncation and tracking
   headers. `WebEmail` covers the dashboard's "From" display and `mailto:`
   link. `UriComponent` models `encodeURIComponent` (UTF-8, then
   percent-encoding) and its decoder.
3. **Widget colours and settings**. `ColorPicker` holds hex validation,
   presets, fallback, typed-text normalisation and picker events.
   `WidgetSettingsSchema` is the settings form's schema. `WidgetHeader` is
   `darkenColor`'s integer arithmetic. `WidgetColorProvider` is the hex to
   "r, g, b" conversion. `ShorthandColors` holds the three-digit colour
   discrepancy and its correction.

`Text` models the JavaScript built-ins the core relies on:
- `parseInt(_, 16)`: leading whitespace, sign, optional `0x`, the longest hex prefix, NaN as `None`;
- `ToInt32`, as used by `>>` and `&`;
- `substring` with clamping and swapping;
- first-occurrence `replace`;
- `split`/`join`, `toString(16)`, and `String(n)` with NaN.

`Wrappers` holds `Option` and `Result`.

Behaviours of the code worth noting (the model follows the code):

- A contact session is rejected only when `expiresAt < now`, so one expiring exactly at `now` is accepted.
- Both escalation guards test only `status == "escalated"`, so a resolved conversation can be escalated again.
- The AI path sets the status only. It never writes `escalatedAt` or `escalationReason`, so an AI-escalated conversation can have no escalation metadata.
- `create` does not compare the session's organisation with the `organizationId` argument.

## Model

| member | source | states |
|---|---|---|
| Conversations.Authorize | packages/backend/convex/public/conversations.ts:68-91 | The guards run in order: invalid or expired session gives UNAUTHORIZED "Invalid session"; then a missing conversation gives NOT_FOUND; then a foreign conversation gives UNAUTHORIZED "Incorrect session". Success holds iff all three pass, and it yields the row. |
| Conversations.SessionExpiringNowAccepted | packages/backend/convex/public/conversations.ts:16 | A session with `expiresAt == now` is valid; one instant later it is not. |
| Conversations.InvalidSessionRejected | packages/backend/convex/public/conversations.ts:14-21 | `getMany`, `getOne`, `create` and `escalateConversation` all fail with "Invalid session" for a missing or expired session, and change nothing. |
| Conversations.GetOneShowsOwnConversation | packages/backend/convex/public/conversations.ts:62-99 | `getOne` succeeds exactly when the guards pass. It returns only the id, status and thread id; on failure it returns the guard's error. |
| Conversations.GetOne | packages/backend/convex/public/conversations.ts:62-99 | A result is only returned for a valid session and an existing conversation of that session, and it carries the requested id. Any failure is one of the three guard errors. |
| Conversations.SessionConversations | packages/backend/convex/public/conversations.ts:23-29 | The session's conversations are exactly those whose `contactSessionId` is the caller's, newest first (strictly decreasing ids). |
| Conversations.GetMany | packages/backend/convex/public/conversations.ts:8-60 | `getMany` fails exactly when the session is missing or expired, and then with "Invalid session". A page never holds more than `numItems` items. |
| Conversations.SummariesOfSlice | packages/backend/convex/public/conversations.ts:23-53 | The summaries of a slice of the session's newest-first conversations are the page at the slice's start. |
| Conversations.GetManyPage | packages/backend/convex/public/conversations.ts:23-58 | The page is the run of the session's conversations (newest first) that starts at the cursor: `numItems` of them, or all that remain. Each item is the summary of the conversation at the same position, belongs to the caller's session, and carries the last message of its thread. The next cursor is just past the page, and `isDone` holds exactly when the page reaches the end. |
| Conversations.GetManyComplete | packages/backend/convex/public/conversations.ts:23-29 | A first page large enough lists every conversation of the session and reports `isDone`. |
| Conversations.SettingsFor | packages/backend/convex/public/conversations.ts:121-126 | `.unique()` on the organisation's widget settings. It gives none exactly when the organisation has no row. It gives the greeting of the one row when there is exactly one. It fails with a not-unique error exactly when two or more rows belong to the organisation. |
| Conversations.Greetings | packages/backend/convex/public/conversations.ts:121-126 | The greetings collected are exactly those of rows belonging to the organisation. |
| Conversations.GreetingsDuplicated | packages/backend/convex/public/conversations.ts:121-126 | At least two greetings are collected exactly when two rows belong to the organisation. |
| Conversations.GreetingsOnlyRow | packages/backend/convex/public/conversations.ts:121-126 | When exactly one row belongs to the organisation, the only greeting collected is that row's. |
| Conversations.Greeting | packages/backend/convex/public/conversations.ts:132-138 | The seeded text is the configured greeting when it is non-empty, otherwise "Hello, how can I help you today?". |
| Conversations.CreateEffects | packages/backend/convex/public/conversations.ts:128-147 | `create` adds one new row and keeps every old row. The new row is unresolved, has the caller's session, the given organisation and creation time `now`, and no escalation fields. Its thread id is fresh, its thread holds exactly the one greeting, and the job queue is unchanged. |
| Conversations.Create | packages/backend/convex/public/conversations.ts:101-149 | A failure leaves the tables unchanged. A success returns the next id, which now names an unresolved conversation of the caller's session, and advances the counter. Sessions and the job queue never change. |
| Conversations.CreateFailures | packages/backend/convex/public/conversations.ts:107-126 | `create` fails, changing nothing, exactly for a bad session or for two or more widget-settings rows of the organisation. A bad session gives "Invalid session"; with a good session the only failure is the not-unique error. The session's organisation is never compared with the argument. |
| Conversations.EscalateConversationGuards | packages/backend/convex/public/conversations.ts:158-181 | A failing guard's error is returned, and the tables stay untouched. |
| Conversations.EscalateConversation | packages/backend/convex/public/conversations.ts:151-213 | A failure or `alreadyEscalated` leaves the tables unchanged. `success` means the conversation was not escalated before and is now, and exactly one job was queued. Sessions and the id counter never change. |
| Conversations.AlreadyEscalatedIsNoOp | packages/backend/convex/public/conversations.ts:184-186 | On an escalated conversation the result is `alreadyEscalated` and the tables, threads and jobs are unchanged. |
| Conversations.EscalateConversationEffects | packages/backend/convex/public/conversations.ts:189-211 | The row gets status escalated, `escalatedAt = now` and reason `customer_requested`, and no other field changes. The conversation's thread gets exactly one assistant message with the fixed text, and other threads are unchanged. Exactly one job carrying the conversation id is queued. |
| Conversations.ResolvedIsEscalatedAgain | packages/backend/convex/public/conversations.ts:184 | A resolved conversation is escalated by the customer's path. |
| Conversations.ThreadMatches | packages/backend/convex/system/conversations.ts:9-12 | The lookup finds exactly the conversations whose thread id matches, highest id first. |
| Conversations.ByThread | packages/backend/convex/system/conversations.ts:9-12 | A found id names a row on that thread. |
| Conversations.ByThreadExact | packages/backend/convex/system/conversations.ts:9-12 | In a valid database `.unique()` never fails. It finds none iff no conversation has the thread, and otherwise the conversation that does. |
| Conversations.SharedThread | packages/backend/convex/system/conversations.ts:12 | When thread ids are unique, at most one conversation matches. |
| Conversations.SetStatusByThread | packages/backend/convex/system/conversations.ts:9-21 | A failure changes nothing. On success the lookup found a conversation on the thread, and it now has the requested status. The set of conversations, the threads, the jobs and the sessions are unchanged. |
| Conversations.Escalate | packages/backend/convex/system/conversations.ts:4-23 | `escalate` either fails without changing anything, or leaves the conversation on the thread escalated. |
| Conversations.Resolve | packages/backend/convex/system/conversations.ts:25-44 | `resolve` either fails without changing anything, or leaves the conversation on the thread resolved. |
| Conversations.SetStatusEffects | packages/backend/convex/system/conversations.ts:4-44 | `escalate` and `resolve` fail with NOT_FOUND, changing nothing, when no conversation has the thread. Otherwise only that row's status changes, and its escalation time and reason are kept. |
| Conversations.SetStatusIdempotent | packages/backend/convex/system/conversations.ts:21 | Escalating or resolving twice leaves the same tables as doing it once. |
| Conversations.GetByThreadIdExact | packages/backend/convex/system/conversations.ts:46-58 | `getByThreadId` gives null when no conversation has the thread, and otherwise that row. |
| Conversations.GetByThreadId | packages/backend/convex/system/conversations.ts:46-58 | A row found is one of the table's rows and lies on the requested thread. The only error is the not-unique one. |
| Conversations.Get | packages/backend/convex/system/conversations.ts:60-65 | `get` returns the row with the id, or null exactly when there is none. |
| Conversations.UpdateEscalationMetadataEffects | packages/backend/convex/system/conversations.ts:67-82 | The patch succeeds iff the row exists. It writes only `escalatedAt` and `escalationReason` (one of the two reasons), leaves status, other fields, other rows, threads and jobs as they were, and a missing row changes nothing. |
| Conversations.UpdateEscalationMetadata | packages/backend/convex/system/conversations.ts:67-82 | The patch fails exactly when the row is missing, with a nonexistent-document error and nothing changed. Otherwise the row has the new time and reason and keeps its status. |
| Conversations.ToolEarlyReturns | packages/backend/convex/system/ai/tools/escalateConversation.ts:10-26 | The tool writes nothing in three cases. With no or an empty thread id it returns "Missing thread ID". With no conversation on the thread it returns "Conversation not found". With the conversation already escalated it returns "Conversation already escalated". |
| Conversations.ToolEscalates | packages/backend/convex/system/ai/tools/escalateConversation.ts:29-53 | The tool sets the status only, keeping `escalatedAt` and `escalationReason`. It appends exactly one assistant message, "Conversation escalated to a human operator.". It queues one job with the conversation, organisation and thread unless scheduling fails, and either way returns the success string. |
| Conversations.EscalateTool | packages/backend/convex/system/ai/tools/escalateConversation.ts:9-54 | Every result other than the success string leaves the tables unchanged. The success string means the thread id was given and non-empty, and the conversation found on it was not escalated and now is. One job was queued unless scheduling failed. Sessions, the id counter and the set of conversations never change. |
| Conversations.ToolEscalatedSteps | packages/backend/convex/system/ai/tools/escalateConversation.ts:28-53 | On a conversation that is not escalated the tool's result is the status change, then the message, then the job unless scheduling fails. |
| Conversations.CustomerThenTool | packages/backend/convex/system/ai/tools/escalateConversation.ts:24-26 | After the customer escalates, the tool reports "already escalated" and changes nothing. In all there is one acknowledgement message and one job. |
| Conversations.ToolThenCustomer | packages/backend/convex/public/conversations.ts:184-186 | After the tool escalates, the customer's call reports `alreadyEscalated` and changes nothing. In all there is one message and one job. |
| Conversations.ThreadNameInjective | packages/backend/convex/public/conversations.ts:128-130 | Distinct thread numbers give distinct thread ids, so every created thread is fresh. |
| Conversations.EmptyValid | packages/backend/convex/schema.ts:85-98 | An empty conversations table, with no threads or counters used, satisfies the invariant. The model's rows also carry the two escalation fields that the mutations write; the schema does not declare them. |
| Conversations.CreatePreservesValid | packages/backend/convex/public/conversations.ts:101-149 | `create` keeps the invariant: the new thread is fresh, so no two conversations share one. |
| Conversations.EscalateConversationPreservesValid | packages/backend/convex/public/conversations.ts:151-213 | `escalateConversation` keeps the invariant. |
| Conversations.SetStatusPreservesValid | packages/backend/convex/system/conversations.ts:4-44 | `escalate` and `resolve` keep the invariant. |
| Conversations.UpdateEscalationMetadataPreservesValid | packages/backend/convex/system/conversations.ts:67-82 | `updateEscalationMetadata` keeps the invariant. |
| Conversations.EscalateToolPreservesValid | packages/backend/convex/system/ai/tools/escalateConversation.ts:9-54 | The tool keeps the invariant. |
| Backend.Deployment.constructor | packages/backend/convex/schema.ts:85-121 | A deployment starts with no conversations, threads or jobs, satisfying the invariant. |
| Backend.Deployment.FindByThread | packages/backend/convex/system/conversations.ts:9-12 | The index scan returns exactly the `.unique()` lookup's result. |
| Backend.Deployment.FindGreeting | packages/backend/convex/public/conversations.ts:121-126 | The widget-settings scan returns exactly the `.unique()` lookup's result. |
| Backend.Deployment.GetMany | packages/backend/convex/public/conversations.ts:8-60 | The filtered, ordered scan and the per-row last-message read produce exactly `Conversations.GetMany`. |
| Backend.Deployment.SessionIds | packages/backend/convex/public/conversations.ts:23-28 | The index scan collects exactly the session's conversations, newest first, as `Conversations.SessionConversations` lists them. |
| Backend.Deployment.Summarize | packages/backend/convex/public/conversations.ts:31-53 | Each page row carries the conversation's fields and its thread's newest message, exactly as `Conversations.Summaries` gives them. |
| Backend.Deployment.GetOne | packages/backend/convex/public/conversations.ts:62-99 | Returns exactly `Conversations.GetOne`. |
| Backend.Deployment.Create | packages/backend/convex/public/conversations.ts:101-149 | Thread creation, greeting and insert leave exactly the result and tables of `Conversations.Create`, and keep the invariant. |
| Backend.Deployment.EscalateConversation | packages/backend/convex/public/conversations.ts:151-213 | Guards, patch, message append and job push leave exactly what `Conversations.EscalateConversation` says, and keep the invariant. |
| Backend.Deployment.Escalate | packages/backend/convex/system/conversations.ts:4-23 | Matches `Conversations.Escalate`, keeping the invariant. |
| Backend.Deployment.Resolve | packages/backend/convex/system/conversations.ts:25-44 | Matches `Conversations.Resolve`, keeping the invariant. |
| Backend.Deployment.SetStatus | packages/backend/convex/system/conversations.ts:9-21 | Lookup then status patch, matching `Conversations.SetStatusByThread`. |
| Backend.Deployment.GetByThreadId | packages/backend/convex/system/conversations.ts:46-58 | Returns exactly `Conversations.GetByThreadId`. |
| Backend.Deployment.UpdateEscalationMetadata | packages/backend/convex/system/conversations.ts:67-82 | Matches `Conversations.UpdateEscalationMetadata`, keeping the invariant. |
| Backend.Deployment.EscalateTool | packages/backend/convex/system/ai/tools/escalateConversation.ts:9-54 | The tool's steps leave exactly what `Conversations.EscalateTool` says, and keep the invariant. |
| EmailUtils.FormatEmailAddress | packages/backend/convex/emails/utils.ts:6-9 | With no or an empty name the result is the address itself; otherwise it is `name <email>`. |
| EmailUtils.FormattedAddressEnclosesEmail | packages/backend/convex/emails/utils.ts:8 | A named address starts with the name and a space and ends with the email between `<` and `>`. When the email itself has no `<`, that `<` is the last one. |
| EmailUtils.Coalesce | packages/backend/convex/emails/utils.ts:18-20 | `??` falls back only for a missing value; an empty string is kept. |
| EmailUtils.GetEmailConfig | packages/backend/convex/emails/utils.ts:14-22 | Each field comes from the custom configuration when present and from the default ("Halply", "send@responsely.ai", "support@responsely.ai") otherwise; no configuration gives the default. |
| EmailUtils.CompleteConfigKept | packages/backend/convex/emails/utils.ts:14-22 | A complete configuration is returned unchanged. |
| EmailUtils.GetEmailConfigIdempotent | packages/backend/convex/emails/utils.ts:14-22 | Filling in defaults twice equals filling them in once. |
| EmailUtils.ReplaceAllConcat | packages/backend/convex/emails/utils.ts:29-33 | A global replace distributes over concatenation. |
| EmailUtils.SanitizeCharwise | packages/backend/convex/emails/utils.ts:27-34 | The chained replaces escape each character independently. |
| EmailUtils.SanitizedIsInert | packages/backend/convex/emails/utils.ts:27-34 | The escaped text contains no `<`, `>`, `"` or `'`. |
| EmailUtils.SanitizeRoundTrip | packages/backend/convex/emails/utils.ts:27-34 | Decoding the five entities recovers the input exactly, because `&` is escaped first. |
| EmailUtils.SanitizeForEmail | packages/backend/convex/emails/utils.ts:27-34 | Text without any of `&`, `<`, `>`, `"` or `'` is returned unchanged. |
| EmailUtils.TruncateText | packages/backend/convex/emails/utils.ts:39-42 | Text of at most `maxLength` is unchanged. Longer text becomes its first `maxLength-3` characters plus "...", exactly `maxLength` long when `maxLength >= 3`. |
| EmailUtils.GetTrackingHeaders | packages/backend/convex/emails/utils.ts:47-55 | Exactly three headers in order: X-Entity-Ref-ID, X-Email-Type, X-Mailer = "Responsely". |
| EmailUtils.TrackingHeaderLookup | packages/backend/convex/emails/utils.ts:47-55 | Looking up each header name finds its value. |
| WebEmail.DisplayFromEmail | apps/web/lib/email-utils.ts:10-22 | A missing or empty address shows "Your organization email". Otherwise the result is the input or the local part at the verified domain. |
| WebEmail.DisplayFromUnverifiedDomain | apps/web/lib/email-utils.ts:4-19 | When the second `@` piece is one of the five listed providers, the result is `local@resend.dev (verified domain)`. |
| WebEmail.SplitEmail | apps/web/lib/email-utils.ts:13-14 | Splitting on `@` yields the local part and the domain as the first two pieces. |
| WebEmail.DisplayFromOtherDomain | apps/web/lib/email-utils.ts:13-21 | When the second `@` piece is any other domain, the whole input is shown unchanged, including anything after a second `@`. |
| WebEmail.DisplayFromNoDomain | apps/web/lib/email-utils.ts:14-21 | An address with no `@` is shown unchanged. |
| WebEmail.FirstUserMessage | apps/web/lib/email-utils.ts:42 | `find` returns the first message whose role is user, or none when there is no such message. |
| WebEmail.SubjectOfFirstUserMessage | apps/web/lib/email-utils.ts:43-44 | The subject is "Re: " plus the first 50 characters of the first user message, with "..." iff it is longer than 50. |
| WebEmail.SubjectWithoutUserMessage | apps/web/lib/email-utils.ts:45 | With no user message the subject is "Re: Your support inquiry". |
| WebEmail.Subject | apps/web/lib/email-utils.ts:42-45 | The subject always starts with "Re: " and is at most 57 characters long. With no user message it is "Re: Your support inquiry". |
| WebEmail.HistoryLines | apps/web/lib/email-utils.ts:48-52 | One line per message, in order, labelled with the customer's name or "Support". |
| WebEmail.HistoryAppend | apps/web/lib/email-utils.ts:53 | The history of two runs of messages is the two histories joined by a blank line. |
| WebEmail.HistorySingle | apps/web/lib/email-utils.ts:48-53 | The history of one message is its line. |
| WebEmail.History | apps/web/lib/email-utils.ts:48-53 | No messages give an empty history. Otherwise the history starts with the first message's line. |
| WebEmail.Body | apps/web/lib/email-utils.ts:55-64 | The body opens with "Hi ", the name and the fixed opening, ends with the fixed closing, and holds exactly the history in between. |
| WebEmail.JoinAppend | apps/web/lib/email-utils.ts:53 | `join` of two non-empty lists is their joins separated once. |
| WebEmail.ParseQueryOf | apps/web/lib/email-utils.ts:67-70 | The query `subject=…&body=…` reads back as the original subject and body. |
| WebEmail.ParseQueryFields | apps/web/lib/email-utils.ts:67-70 | Two values free of `&` split back into the subject and body fields; the result is their decodings, or none if either fails to decode. |
| WebEmail.SplitLinkAddress | apps/web/lib/email-utils.ts:70 | A link with an address free of `?` splits into address and query. |
| WebEmail.MailtoLink | apps/web/lib/email-utils.ts:36-71 | A mail client recovers the address, subject and body of the link exactly, as long as the address holds no `?` (it is not encoded). |
| WebEmail.ParseMailtoOf | apps/web/lib/email-utils.ts:70 | Any `mailto:address?subject=enc&body=enc` link reads back to its three parts. |
| UriComponent.Utf8 | apps/web/lib/email-utils.ts:67-68 | A character's UTF-8 encoding is 1 to 4 bytes. |
| UriComponent.Encode | apps/web/lib/email-utils.ts:67-68 | `encodeURIComponent` emits only unreserved characters and `%`. |
| UriComponent.DecodeEncode | apps/web/lib/email-utils.ts:67-68 | Decoding the encoding recovers the text. |
| UriComponent.Utf8RoundTrip | apps/web/lib/email-utils.ts:67-68 | UTF-8 decoding inverts UTF-8 encoding. |
| UriComponent.ReadEscapesOfBytes | apps/web/lib/email-utils.ts:67-68 | Percent escapes read back as their bytes. |
| UriComponent.EncodeHasNoDelimiters | apps/web/lib/email-utils.ts:70 | An encoded component has no `?`, `&`, `=` or `#`, so it cannot break the link's structure. |
| ColorPicker.ValidHexShape | packages/ui/src/components/color-picker.tsx:29-31 | `#` plus digits is valid iff the digits are exactly 3 or 6 hex digits of either case. |
| ColorPicker.IsValidHex | packages/ui/src/components/color-picker.tsx:29-31 | A valid colour has no `#` after the first character, so removing the first `#` leaves exactly its digits. |
| ColorPicker.PresetsAreValid | packages/ui/src/components/color-picker.tsx:15-19 | There are 18 presets and all are valid. |
| ColorPicker.DisplayedColor | packages/ui/src/components/color-picker.tsx:85-86 | The swatch and native input always show a valid colour: the value when valid, "#3b82f6" otherwise. |
| ColorPicker.ErrorMatchesFallback | packages/ui/src/components/color-picker.tsx:106-108 | The error text shows exactly for a non-empty invalid value, which is then displayed as the fallback. |
| ColorPicker.NormalizeTextInput | packages/ui/src/components/color-picker.tsx:93-101 | Typed text gets a `#` prefix iff it is non-empty and does not start with `#`; otherwise it is emitted unchanged. |
| ColorPicker.NormalizeIdempotent | packages/ui/src/components/color-picker.tsx:93-101 | Normalising twice equals normalising once. |
| ColorPicker.NormalizeValidity | packages/ui/src/components/color-picker.tsx:93-101 | The emitted value is valid iff the text was valid or was 3 or 6 bare hex digits. |
| ColorPicker.PresetClickEmitsValidColor | packages/ui/src/components/color-picker.tsx:24-27 | Choosing a preset emits exactly that colour, which is valid, and closes the popover. |
| ColorPicker.TypingIsStable | packages/ui/src/components/color-picker.tsx:91-101 | Typing keeps the popover state, and re-typing the emitted value emits it again. |
| ColorPicker.Step | packages/ui/src/components/color-picker.tsx:24-101 | Every event except an open-state change emits a value. The popover's open flag changes only on a preset click or an open-state change. |
| WidgetSettingsSchema.PatternAgreesWithPicker | apps/web/modules/customization/schemas.ts:33-35 | The form's colour pattern accepts exactly the colours the picker calls valid. |
| WidgetSettingsSchema.ValidateIffValid | apps/web/modules/customization/schemas.ts:5-51 | A parse reports no issue iff: the greeting is 1 to 500 characters; each suggestion is absent, empty or at most 100; the colour matches; the position is bottom-right or bottom-left; and the theme is light, dark or auto. |
| WidgetSettingsSchema.Validate | apps/web/modules/customization/schemas.ts:5-49 | A parse reports at most seven issues. Each issue's path starts with `greetMessage`, `defaultSuggestions` or `appearance`, never the voice settings. |
| WidgetSettingsSchema.GreetMessageIssues | apps/web/modules/customization/schemas.ts:7-10 | The greeting reports at most one issue, on the path `greetMessage`. |
| WidgetSettingsSchema.SuggestionIssues | apps/web/modules/customization/schemas.ts:14-28 | A suggestion reports at most one issue, on its own path under `defaultSuggestions`. |
| WidgetSettingsSchema.AppearanceIssues | apps/web/modules/customization/schemas.ts:32-42 | The appearance reports at most three issues, each on a path under `appearance`. |
| WidgetSettingsSchema.AppearanceIssuesEmpty | apps/web/modules/customization/schemas.ts:31-41 | The appearance reports no issue iff the colour matches the pattern, the position is bottom-right or bottom-left and the theme is light, dark or auto. |
| WidgetSettingsSchema.VapiSettingsUnconstrained | apps/web/modules/customization/schemas.ts:45-48 | The voice settings never cause an issue. |
| WidgetHeader.PrimaryColor | apps/widget/modules/widget/ui/components/widget-header.tsx:15 | The configured colour, or "#3b82f6" when it is missing or empty. |
| WidgetHeader.AmountFor | apps/widget/modules/widget/ui/components/widget-header.tsx:24 | The amount is `2.55 * percent` rounded half up, and non-negative for a non-negative percent. |
| WidgetHeader.DefaultAmount | apps/widget/modules/widget/ui/components/widget-header.tsx:34 | The header's 15 % gives an amount of 38. |
| WidgetHeader.ClampChannel | apps/widget/modules/widget/ui/components/widget-header.tsx:29-31 | Each channel is clamped to [0, 255]; values below 1 become 0. |
| WidgetHeader.DarkenedChannels | apps/widget/modules/widget/ui/components/widget-header.tsx:20-27 | Whatever the input, the three computed channels lie in [0, 255]. |
| WidgetHeader.FormatRgb | apps/widget/modules/widget/ui/components/widget-header.tsx:29-31 | The output is `#` and exactly six lower-case hex digits, the packed channels padded to width 6. |
| WidgetHeader.DarkenColor | apps/widget/modules/widget/ui/components/widget-header.tsx:18-32 | Any input yields a valid seven-character lower-case colour. |
| WidgetHeader.GradientTo | apps/widget/modules/widget/ui/components/widget-header.tsx:34 | The gradient's end colour is always a valid seven-character lower-case colour, whatever the configured colour. |
| WidgetHeader.SixDigitValue | apps/widget/modules/widget/ui/components/widget-header.tsx:23-27 | Six hex digits are worth `r*65536 + g*256 + b` of their digit pairs. |
| WidgetHeader.PackedChannels | apps/widget/modules/widget/ui/components/widget-header.tsx:25-27 | `>> 16`, `>> 8 & 0xFF` and `& 0xFF` recover the three channels. |
| WidgetHeader.ParseSixDigits | apps/widget/modules/widget/ui/components/widget-header.tsx:23 | `parseInt` of six hex digits is their packed channels. |
| WidgetHeader.DimAll | apps/widget/modules/widget/ui/components/widget-header.tsx:25-31 | Lowering by the amount keeps channels in range and never raises one. |
| WidgetHeader.DarkenSixDigits | apps/widget/modules/widget/ui/components/widget-header.tsx:17-31 | For "#RRGGBB" each output channel is the input channel lowered by the amount and floored at 0, so the shade is never brighter. |
| WidgetHeader.DarkenedFromPacked | apps/widget/modules/widget/ui/components/widget-header.tsx:20-31 | Any text that parses to packed channels darkens channel by channel. |
| WidgetHeader.ShiftPacked | apps/widget/modules/widget/ui/components/widget-header.tsx:25-27 | The shifts and masks on packed channels give the lowered channels. |
| WidgetHeader.FormatReadsBack | apps/widget/modules/widget/ui/components/widget-header.tsx:29-31 | The formatted shade parses back to its own channels. |
| WidgetHeader.DarkenTwice | apps/widget/modules/widget/ui/components/widget-header.tsx:18-32 | Darkening a shade lowers each channel again by the second amount. |
| WidgetHeader.DarkenByZero | apps/widget/modules/widget/ui/components/widget-header.tsx:18-32 | Darkening "#RRGGBB" by 0 % only lower-cases its digits. |
| WidgetColorProvider.ReadChannels | apps/widget/modules/widget/ui/components/widget-color-provider.tsx:17-20 | With at most four characters left after the first `#` is removed, blue is NaN; with at most two, green is NaN too; an empty colour gives three NaNs. |
| WidgetColorProvider.RgbVariable | apps/widget/modules/widget/ui/components/widget-color-provider.tsx:21 | When blue is NaN the variable ends in "NaN". |
| WidgetColorProvider.Variables | apps/widget/modules/widget/ui/components/widget-color-provider.tsx:9-21 | The colour variable is never empty and is the configured colour when one is set. The RGB variable is the reading of that same colour. |
| WidgetColorProvider.SixDigitReading | apps/widget/modules/widget/ui/components/widget-color-provider.tsx:17-20 | For "#RRGGBB" the three `parseInt`s of characters [0,2), [2,4), [4,6) give the header's three channels, each in [0, 255]. |
| WidgetColorProvider.RgbVariableOf | apps/widget/modules/widget/ui/components/widget-color-provider.tsx:21 | Three parsed numbers are printed in decimal as `r, g, b`. |
| WidgetColorProvider.HeaderDarkensProviderChannels | apps/widget/modules/widget/ui/components/widget-color-provider.tsx:18-20 | The provider's substring reads and the header's shift parse see the same channels, and the header dims exactly those. |
| ShorthandColors.ShorthandReadsNaN | apps/widget/modules/widget/ui/components/widget-color-provider.tsx:18-20 | A valid "#xyz" is read as `xy`, `z` and NaN. |
| ShorthandColors.ThreeDigitValue | apps/widget/modules/widget/ui/components/widget-header.tsx:23 | Three hex digits are worth `x*256 + y*16 + z`. |
| ShorthandColors.ShorthandAsPacked | apps/widget/modules/widget/ui/components/widget-header.tsx:25-27 | The channels found in 0xxyz lie in range. |
| ShorthandColors.ParseThreeDigits | apps/widget/modules/widget/ui/components/widget-header.tsx:23 | `parseInt` of "xyz" is the packed value 0x000xyz. |
| ShorthandColors.ShorthandDarkensWrong | apps/widget/modules/widget/ui/components/widget-header.tsx:20-31 | `darkenColor` of a valid "#xyz" always has red 0, with the digits shifted into green and blue. |
| ShorthandColors.ExpandedDigits | packages/ui/src/components/color-picker.tsx:29-31 | Every valid colour stands for six hex digits. |
| ShorthandColors.ExpandedKeepsSixDigits | apps/widget/modules/widget/ui/components/widget-color-provider.tsx:17-20 | The expansion leaves six-digit colours as they are. |
| ShorthandColors.ExpandedShorthandChannels | packages/ui/src/components/color-picker.tsx:29-31 | "#xyz" stands for the channels 17x, 17y, 17z. |
| ShorthandColors.ValidColorHasChannels | apps/widget/modules/widget/ui/components/widget-color-provider.tsx:17-21 | After expansion every valid colour gives three decimal channels in [0, 255], with no NaN. |
| ShorthandColors.ValidColorDarkens | apps/widget/modules/widget/ui/components/widget-header.tsx:17-31 | After expansion every valid colour is darkened channel by channel. |
| Text.ParseIntHexAll | apps/widget/modules/widget/ui/components/widget-header.tsx:23 | `parseInt(s, 16)` of a non-empty all-hex string is its base-16 value. |
| Text.ParseIntHex | apps/widget/modules/widget/ui/components/widget-header.tsx:23 | The empty string is NaN. A number is only read from text with something left after the leading white space, and a negative number only when that text starts with `-`. |
| Text.ParseIntHexDigits | apps/widget/modules/widget/ui/components/widget-color-provider.tsx:18-20 | `parseInt` stops at the first character that is not a hex digit. |
| Text.ParseIntHexHash | apps/widget/modules/widget/ui/components/widget-header.tsx:20-23 | A string still starting with `#` parses to NaN. |
| Text.ToInt32 | apps/widget/modules/widget/ui/components/widget-header.tsx:25-27 | The bit operators see NaN as 0, and see non-negative values below 2^31 unchanged. |
| Text.RemoveFirst | apps/widget/modules/widget/ui/components/widget-header.tsx:20 | `replace("#", "")` removes only a first occurrence, and leaves a string without one unchanged. |
| Text.Substring | apps/widget/modules/widget/ui/components/widget-color-provider.tsx:18-20 | `substring` of an in-range slice is that slice, and it clamps an end past the length. |
| Text.Clamp | apps/widget/modules/widget/ui/components/widget-color-provider.tsx:18-20 | An index is clamped into the string's bounds. |
| Text.SplitJoin | apps/web/lib/email-utils.ts:13 | `split` pieces hold no separator, and joining them back gives the input. |
| Text.DecimalRoundTrip | apps/widget/modules/widget/ui/components/widget-color-provider.tsx:21 | The decimal text of a number reads back as that number. |
| Text.DecimalInjective | apps/widget/modules/widget/ui/components/widget-color-provider.tsx:21 | Different numbers print differently. |
| Text.HexFixedValue | apps/widget/modules/widget/ui/components/widget-header.tsx:29-31 | Fixed-width hex digits read back as their number. |
| Text.ToHexStringLeadingOne | apps/widget/modules/widget/ui/components/widget-header.tsx:29-31 | `(16^w + x).toString(16)` is "1" followed by `x` in exactly `w` digits. |

## Left out

- Session refresh. The `internal.system.contactSessions.refresh` call in `create` belongs to a module that is not part of this model, so the session's expiry is never extended.
- Convex ids and pagination cursors are opaque strings in the system. Here ids come from a counter and a cursor counts the items already returned. `_creationTime` order is modelled as insertion order.
- Thread creation, `saveMessage` and `listMessages` belong to the agent component. They become a thread counter, an append to a per-thread log, and the last entry of that log.
- The bodies of the two notification actions are not part of this model. Jobs are opaque records in a queue.
- A failed scheduler call is the parameter `scheduleFails`. `Date.now()` is the parameter `now`.
- Concurrency is not modelled. The tool's query and mutation run one after the other, and `Promise.all` over the page is a sequential loop. The check-then-act race between them is not modelled.
- A thread log is appended to even when the thread is missing. In a valid database every conversation's thread exists.
- `Conversations.SetStatusByThread` patches the row found by the lookup. A row deleted in between, and the resulting patch error, cannot occur without concurrency.
- Floating point. `Math.round(2.55 * percent)` is computed on exact rationals. For some percents a binary double could round the other way.
- Lengths count Unicode scalar values, not UTF-16 code units. Lone surrogates are outside Dafny's `char`.
- WebEmail.Subject: `substring(0, 50)` counts UTF-16 code units in the source and can cut a surrogate pair, for instance 49 ASCII characters followed by an emoji. The model cuts after 50 whole characters, so such a subject is longer here than in the source.
- WebEmail.MailtoLink: in the source, a subject cut inside a surrogate pair makes `encodeURIComponent` throw a URIError, so `generateMailtoLink` throws. The model cannot produce a lone surrogate and always returns a link.
- Text.ParseIntHex: `parseInt` returns a double. Above 2^53 the source rounds to the nearest double, so 14 or more significant hex digits can give a different number. The model keeps the exact integer.
- Text.ParseIntHexAll: states the exact base-16 value. For 14 or more significant digits the source's double can differ from it.
- WidgetHeader.DarkenedChannels: built on the exact parse. For an input of 14 or more hex digits, such as "#100000000ffffff", the source's rounded double gives different channels ("#da0000" instead of "#d9d9d9"). Inputs of at most 13 digits, which include every valid colour, agree.
- Escalation fields. The `conversations` table in `packages/backend/convex/schema.ts` declares neither `escalatedAt` nor `escalationReason`, and Convex validates writes against the schema by default, so the patches that set them would be rejected at run time. The model assumes these writes are accepted, as the code's intent is evident.
- `WidgetColorProvider.RgbVariable`: the instance "59, 130, 246" for the default colour is not proved as a concrete lemma. It follows from `SixDigitReading` and `RgbVariableOf` for any six-digit colour.
- The DOM writes of the colour provider's effect and the header's inline style are modelled as the values they would set. The picker's popover flag is kept only as far as `ColorPicker.Step` needs it.
- zod's parsing internals and its issue objects beyond path and message are not modelled. The regular expression is written out as a predicate.

## Findings

| source | as written | input that shows it | evidently intended | confidence | as-written member | corrected member |
|---|---|---|---|---|---|---|
| apps/widget/modules/widget/ui/components/widget-color-provider.tsx:18-21 | Reads characters [0,2), [2,4), [4,6) of any accepted colour, although the picker and the settings schema also accept "#rgb" | "#fff" gives "255, 15, NaN" | Expand the shorthand to "#rrggbb" first (section 5.2 of CSS Color Module Level 4), giving "255, 255, 255" | not executed | ShorthandColors.ShorthandReadsNaN | ShorthandColors.ValidColorHasChannels |
| apps/widget/modules/widget/ui/components/widget-header.tsx:20-31 | Parses the whole digit string as one number and shifts by 16 and 8, so three digits land in green and blue | "#fff" is read as red 0, green 15, blue 255 and darkened to "#0000d9" | Expand the shorthand first, so "#fff" darkens to "#d9d9d9" | not executed | ShorthandColors.ShorthandDarkensWrong | ShorthandColors.ValidColorDarkens |
