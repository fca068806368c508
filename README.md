# work-signal: thread view, conversation list and message merge in Dafny

This project models the client-side synchronisation and presentation logic of
work-signal, a web client for a messaging relay, together with the backend
endpoints that feed it:

- **Thread view** (`ChatView.js`). It drops messages whose body is missing,
  not a string or blank. It classifies each message as outgoing by an OR of
  five strict comparisons. It decides which messages start a visual group and
  which header each carries. It writes the "mark read while viewing"
  watermark and runs the compose box's send cycle.
- **Conversation list** (`ChatLayout.js`). It computes unread counts from the
  backend's `message_count` and a map of read watermarks, and has three
  writers of that map: startup load, conversation click and new chat. It also
  replaces the conversation list on each poll.
- **Backend endpoints** (`views.py`). `messages_list` routes a contact to the
  group query when it ends in `=`. Any other contact gets the received and
  sent rows merged, de-duplicated by id and stably sorted by timestamp.
  `send_message` validates its fields. `contact_profile` finds the first
  matching conversation and shapes the reply.

Modules: `Wrappers` (Option), `JsValues` (JSON field values with
JavaScript's truthiness, `===`, `||` and `String.prototype.trim`),
`ReadState` (the `lastReadMessages` item of local storage), `ChatView`,
`ChatLayout`, `PyValues` (Python truthiness and `==`, under which
`True == 1`), `MessageMerge` and `Views`.

State that the source changes step by step is a class with those fields:
`ChatView.Thread`, `ChatLayout.Sidebar` and `ReadState.LocalStorage`. Its
methods take the outcome of each network call as a parameter. Each poll is
one explicit call of `LoadMessages` or `LoadConversations`. On the backend,
every client call is a parameter too, either the returned JSON or the
exception raised (`Views.Call`). The merge loop and the lookup loop are
methods with loop invariants. Python's `list.sort` is a library call, so it
is modelled by a reference stable insertion sort, `SortByTimestamp`, proved
sorted, a permutation and stable.

Behaviour taken from the code that a reader may not expect:

- Watermark writes are plain overwrites, not maxima.
  `ChatLayout.NewChatLowersWatermark` shows a watermark going from 5 to 0.
- The outgoing flag must be exactly `1` or `true`. A truthy `2` or `"1"`
  does not count (`ChatView.FallbackRules`).
- The view's mark-read write goes to local storage only. The conversation
  list reads storage once, at startup. So the view's write does not lower
  the list's unread badge. The list's next click also writes its own
  in-memory map over it (`ChatLayout.Sidebar.HandleConversationClick`).
- For an individual contact, the profile's `message_count` counts only the
  sender query (the rows received from the contact), while the thread shows
  the merged received+sent list. For a group it is the group query's length.
- After a successful send whose reload fails, the reload sets an error and
  the send handler then clears it (`ChatView.Thread.HandleSendMessage`).
- Nothing in the send handler itself rejects a second send. Only the
  disabled button and input prevent one.

## Model

| member | source | states |
|---|---|---|
| `ChatView.HasVisibleBodyIff` | frontend/src/components/ChatView.js:68-71 | the filter keeps a message iff its body is a string with a non-white-space character |
| `ChatView.VisibleMessages` | frontend/src/components/ChatView.js:68-71 | every shown message passes the filter and no more messages are shown than were fetched |
| `ChatView.VisibleMessagesAppend` | frontend/src/components/ChatView.js:68-71 | the filter keeps the original relative order: filtering a concatenation concatenates the filtered parts |
| `ChatView.VisibleMessagesCount` | frontend/src/components/ChatView.js:68-71 | each message with a visible body is shown exactly as often as it was fetched; any other message never |
| `ChatView.VisibleMessagesExample` | frontend/src/components/ChatView.js:68-71 | bodies `""`, `"   "` and null are dropped, `"hi"` is kept |
| `JsValues.TrimEmptyIffBlank` | frontend/src/components/ChatView.js:70 | `s.trim()` is empty iff every character of `s` is JavaScript white space |
| `ChatView.MyNumber` | frontend/src/components/ChatView.js:176 | the local number is never empty: it is the configured number unless that is missing or empty, and `+1234567890` otherwise |
| `ChatView.ShortNumberShape` | frontend/src/components/ChatView.js:177 | the rewrite fires exactly on a leading `+` and two ASCII digits, which become `0`; other strings are unchanged; the rewrite is idempotent |
| `ChatView.ShortNumberExample` | frontend/src/components/ChatView.js:176-177 | `+1234567890` becomes `034567890`, `+31612345678` becomes `0612345678`, `0612345678` is unchanged |
| `ChatView.FirstFiring` | frontend/src/components/ChatView.js:179-183 | the rule found is the first rule of the list that fires (every rule before it does not fire), so the flag beats the sentinel name, which beats the known number; when none is found, no rule of the list fires |
| `ChatView.ClassifierFollowsRules` | frontend/src/components/ChatView.js:179-183 | the five-way OR agrees with the ordered rule list flag, sentinel name, known number: outgoing iff some rule fires |
| `ChatView.FlagWins` | frontend/src/components/ChatView.js:179-180 | `is_outgoing` exactly `1` or `true` makes a message outgoing whatever its sender |
| `ChatView.FallbackRules` | frontend/src/components/ChatView.js:181-183 | without that flag, outgoing iff `sender_name` is `"Me"` or `sender_number` is the configured number or its short form |
| `ChatView.GroupBoundaryRules` | frontend/src/components/ChatView.js:195-196 | index 0 starts a group; a change of side starts one; two incoming messages with different senders start one; consecutive outgoing messages never split; incoming ones from the same sender do not split |
| `ChatView.DisplayGroupsStarts` | frontend/src/components/ChatView.js:185-196 | cutting the shown messages into visual groups loses, adds and reorders nothing, no group is empty, and a group begins exactly at the indices where the render's `isFirstInGroup` holds |
| `ChatView.DisplayGroupsUniform` | frontend/src/components/ChatView.js:179-196 | every group is drawn on one side and an incoming group comes from one `sender_number`; no two neighbouring groups could have been one |
| `ChatView.DisplayGroupsExample` | frontend/src/components/ChatView.js:185-196 | `[in/A, in/A, out, in/B]` is drawn as the groups `[in/A, in/A]`, `[out]`, `[in/B]` |
| `ChatView.GroupStartsExample` | frontend/src/components/ChatView.js:195-196 | `[in/A, in/A, out, in/B]` gives the flags `[T, F, T, T]` |
| `ChatView.HeaderAt` | frontend/src/components/ChatView.js:208-227 | only first-in-group messages get a header; an incoming header shows `sender_name`, or `sender_number` when the name is falsy, plus the time; an outgoing header shows only the time |
| `ChatView.MarkedOnViewWrites` | frontend/src/components/ChatView.js:45-51 | with contact info and at least one shown message, the contact's watermark becomes the viewed count and every other key is kept; otherwise, or when the stored item does not parse, nothing is written |
| `ChatView.SubmitDisabledIff` | frontend/src/components/ChatView.js:263 | the send button is disabled iff a send is in flight or the input is blank |
| `ChatView.Thread.constructor` | frontend/src/components/ChatView.js:28-33 | the initial state: no messages, empty input, loading, not sending, no contact info, no error; the local number is `MyNumber` of the configured setting |
| `ChatView.Thread.Groups` | frontend/src/components/ChatView.js:185-227 | the groups drawn for the shown messages concatenate back to them, and a header is drawn at a message iff a group begins there |
| `ChatView.Thread.LoadMessages` | frontend/src/components/ChatView.js:62-87 | a successful load replaces the list by the filtered messages (none if the field is missing) and clears the error; a failed one keeps the stale list and sets the server's error or the default; loading ends either way |
| `ChatView.Thread.LoadContactInfo` | frontend/src/components/ChatView.js:89-99 | success stores the profile and clears the error; failure keeps the old profile and sets the error |
| `ChatView.Thread.MarkReadOnView` | frontend/src/components/ChatView.js:45-51 | the stored item becomes `MarkedOnView` of the old item, the loaded contact info and the shown count; the effect throws exactly when it runs on an item that does not parse, and then writes nothing |
| `ChatView.Thread.HandleSendMessage` | frontend/src/components/ChatView.js:101-119 | blank input is a no-op; otherwise the untrimmed text is sent; success clears the input, reloads, calls `onRefresh` and clears the error; failure keeps the input and sets the error; `sending` is false afterwards |
| `ChatLayout.UnreadCount` | frontend/src/components/ChatLayout.js:116-127 | the unread count is never negative, is at least count minus watermark, and equals it when positive (missing count or watermark read as 0) |
| `ChatLayout.ShowsBadgeIff` | frontend/src/components/ChatLayout.js:168-170 | a badge is drawn iff the reported count exceeds the watermark |
| `ChatLayout.ClickedMarksFrame` | frontend/src/components/ChatLayout.js:80-89 | a click sets that conversation's watermark to `message_count` (0 if absent) and keeps every other entry |
| `ChatLayout.ClickClearsUnread` | frontend/src/components/ChatLayout.js:84-87 | right after a click, with the same count, that conversation has 0 unread and no badge |
| `ChatLayout.ClickKeepsOtherUnread` | frontend/src/components/ChatLayout.js:84-87 | a click changes no other conversation's unread count |
| `ChatLayout.NewChatMarksFrame` | frontend/src/components/ChatLayout.js:102-109 | a new chat sets that contact's watermark to 0 and keeps every other entry |
| `ChatLayout.NewChatUnread` | frontend/src/components/ChatLayout.js:102-109 | after a new chat, every message the contact reports counts as unread |
| `ChatLayout.NewChatLowersWatermark` | frontend/src/components/ChatLayout.js:104-107 | watermarks are not monotone: a new chat takes a watermark of 5 back to 0 |
| `ChatLayout.Sidebar.constructor` | frontend/src/components/ChatLayout.js:37-41 | the initial state: no conversations, loading, empty watermark map |
| `ChatLayout.Sidebar.LoadStoredMarks` | frontend/src/components/ChatLayout.js:47-55 | the map becomes the parsed stored value; a missing or unparsable item leaves it unchanged |
| `ChatLayout.Sidebar.LoadConversations` | frontend/src/components/ChatLayout.js:65-73 | a successful poll replaces the list wholesale (empty if the field is missing); a failed one keeps it; loading ends either way |
| `ChatLayout.Sidebar.HandleConversationClick` | frontend/src/components/ChatLayout.js:80-89 | the map becomes the clicked map and the same map is persisted |
| `ChatLayout.Sidebar.HandleNewChat` | frontend/src/components/ChatLayout.js:102-109 | the map becomes the new-chat map and the same map is persisted |
| `MessageMerge.SeenIdsIff` | backend/api/views.py:77-83 | `seen_ids` after a pass holds exactly the truthy ids met, up to `==` |
| `MessageMerge.LastFirstOccurrence` | backend/api/views.py:82-87 | the loop keeps a row iff its id is falsy or no earlier row has an equal id |
| `MessageMerge.DeduplicatedIndices` | backend/api/views.py:77-87 | the de-duplicated list is the subsequence of received-then-sent rows made of exactly the first occurrences of each truthy id and every row with a falsy id, in order |
| `MessageMerge.DeduplicatedUniqueIds` | backend/api/views.py:80-84 | after de-duplication every truthy id occurs at most once |
| `MessageMerge.DeduplicatedKeepsIdless` | backend/api/views.py:85-87 | rows with a falsy or missing id are all kept, duplicates included |
| `MessageMerge.DeduplicatedKeepsIds` | backend/api/views.py:80-84 | no truthy id is lost by de-duplication |
| `MessageMerge.SortByTimestampCorrect` | backend/api/views.py:89 | the sort is ordered by timestamp (missing read as 0), is a permutation, and keeps the order of rows with equal timestamps |
| `MessageMerge.SortIsStable` | backend/api/views.py:89 | for each timestamp, the rows with that timestamp appear in the same order before and after sorting |
| `MessageMerge.SortKeepsUniqueIds` | backend/api/views.py:89 | sorting a list with unique truthy ids keeps them unique |
| `MessageMerge.MergedProperties` | backend/api/views.py:75-91 | the merged list is sorted, has unique truthy ids, holds the de-duplicated rows with ties in received-then-sent order, and keeps every id-less row |
| `MessageMerge.MergedWithoutSent` | backend/api/views.py:63-73 | with no sent rows the result is the received rows de-duplicated and sorted; `Views.MessagesList` ensures that the fallback path (sent query raised, unfiltered query returned) replies with exactly `Merged(received, [])` |
| `MessageMerge.MergeMessages` | backend/api/views.py:75-91 | the loop with its `seen_ids` set, followed by the sort, yields the merged list: sorted, unique ids, a permutation of the de-duplicated rows |
| `Views.MessagesList` | backend/api/views.py:45-100 | a contact ending in `=` is relayed from the group query; another truthy contact gets the merge of received and sent rows; a failing sent query falls back to no sent rows, unless the fallback query also fails; no contact relays the sender/group query |
| `Views.SendMessage` | backend/api/views.py:125-142 | 400 iff `to` or `message` is falsy; otherwise both are forwarded unchanged and the reply is 201 with the client's data, or 500 if the client raised |
| `Views.FindContact` | backend/api/views.py:209-213 | the result is the first conversation whose `contact_number` equals the contact, and none iff no conversation matches |
| `Views.ContactProfile` | backend/api/views.py:194-241 | 400 without a contact; 404 when no conversation matches; otherwise the first match's fields with `is_group` defaulting to false and `message_count` the length of the group query when `is_group` is truthy, else of the sender query |

## Left out

- Polling timers (`setInterval`/`clearInterval`), `async`/`await` interleaving and effect scheduling are not modelled. Each poll is one explicit method call with the fetch outcome as a parameter.
- Cancellation of a thread's poll when the active contact changes is not modelled. A `Thread` has one fixed contact.
- ChatView.Thread.HandleSendMessage: the guard against a second send is only the disabled button and input. A send in flight cannot be observed inside one call, so the model does not capture it.
- ChatView.Thread.MarkReadOnView: the throw on an unparsable stored item is reported as `threw`. What follows it is not modelled. No error boundary catches it, so React unmounts the application.
- ChatView.MarkedOnViewWrites: for an unparsable stored item it states only that nothing is written. The throw itself is stated by `ChatView.Thread.MarkReadOnView`.
- Views.MessagesList: a `messages` key that is present but `null` in the sender query's reply is not representable. `.get('messages', [])` then yields `None`, the concatenation raises, and the reply is a 500.
- Views.MessagesList: a non-numeric `timestamp` (a string) on some rows while others lack one is not representable. The sort then compares it with the default `0`, raises, and the reply is a 500.
- MessageMerge.SortByTimestampCorrect: timestamps are integers or missing. Float timestamps are not represented, and neither are rows whose timestamps are all strings, which Python sorts lexicographically without error.
- `formatTimestamp` is left out because it depends on the locale and the clock. Headers carry the raw `received_at`.
- `scrollToBottom`, rendering, styling, the drawer, logout and the `navigate` calls after a click or a new chat are UI and are left out.
- `console.log`/`console.error` output is left out.
- The JSON encoding and decoding of the stored watermarks is not modelled. The stored item is missing, unparsable or a parsed map from string to integer. A stored value that parses to something other than an object is not modelled.
- Numbers on both sides are integers. Floating point and NaN are left out.
- The frontend's `contact_number` is a string. Coercing other values to property keys is not modelled.
- Python containers as field values are not modelled. The same goes for the TypeErrors they, or a `timestamp` that is present but `None`, would raise.
- Exceptions become 500 replies only where a client call raises. Other exception paths are framework glue.
- A relayed messages payload keeps only its `messages` field in the model. Other keys are not represented.
- backend/api/signal_client.py is not part of this model: it is an HTTP wrapper that builds a query dictionary. Its calls are parameters here.
- frontend/src/services/api.js, frontend/src/App.js, backend/api/urls.py, frontend/src/components/ProfileView.js and frontend/src/components/NewChatDialog.js are not part of this model. They hold auth plumbing, routing, display and a trivial form.
- The other endpoints in views.py (`conversations_list`, `groups_list`, `message_detail`, `stats`, `health_check`, `user_profile`) are plain relays and are not part of this model.
- In the fallback branch of `messages_list`, the unfiltered query is made and can fail, but its rows are discarded.
