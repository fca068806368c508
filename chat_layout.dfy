/**
 * The conversation list: unread badges computed from the backend's message
 * counts and the read watermarks, the three writers of the watermark map
 * (startup load, conversation click, new chat), and the list's poll step.
 */
module ChatLayout {
  import opened Wrappers
  import opened JsValues
  import opened ReadState

  /** One entry of the `conversations` array. `contactNumber` is the key of
      the watermark map. */
  datatype Conversation = Conversation(
    contactNumber: string,
    contactName: JsValue,
    messageCount: Option<int>,
    isGroup: JsValue,
    lastMessageAt: JsValue
  )

  /** The `data` of a conversations response; `conversations` may be missing. */
  datatype ConversationsData = ConversationsData(conversations: Option<seq<Conversation>>)

  /** `conv.message_count || 0`. */
  function MessageCount(conv: Conversation): int {
    conv.messageCount.GetOr(0)
  }

  /** `getUnreadCount`: the reported count minus the watermark, floored at 0.
      The result is the least non-negative number not below the difference. */
  function UnreadCount(marks: map<string, int>, conv: Conversation): (r: nat)
    ensures r >= MessageCount(conv) - Watermark(marks, conv.contactNumber)
    ensures r > 0 ==> r == MessageCount(conv) - Watermark(marks, conv.contactNumber)
  {
    var unread := MessageCount(conv) - Watermark(marks, conv.contactNumber);
    if unread > 0 then unread else 0
  }

  /** The badge is drawn when the unread count is positive. */
  predicate ShowsBadge(marks: map<string, int>, conv: Conversation) {
    UnreadCount(marks, conv) > 0
  }

  /** A badge shows exactly when the reported count exceeds the watermark
      (a missing count or watermark reading as 0). */
  lemma ShowsBadgeIff(marks: map<string, int>, conv: Conversation)
    ensures ShowsBadge(marks, conv) <==> MessageCount(conv) > Watermark(marks, conv.contactNumber)
  {
  }

  /** The map written by `handleConversationClick`: an overwrite, not a maximum. */
  function ClickedMarks(marks: map<string, int>, conv: Conversation): map<string, int> {
    marks[conv.contactNumber := MessageCount(conv)]
  }

  /** The map written by `handleNewChat`: an overwrite with 0. */
  function NewChatMarks(marks: map<string, int>, contactNumber: string): map<string, int> {
    marks[contactNumber := 0]
  }

  /** A click sets the clicked conversation's watermark to its count (0 if
      absent) and leaves every other entry as it was. */
  lemma ClickedMarksFrame(marks: map<string, int>, conv: Conversation)
    ensures var r := ClickedMarks(marks, conv);
      && r.Keys == marks.Keys + {conv.contactNumber}
      && r[conv.contactNumber] == conv.messageCount.GetOr(0)
      && forall k :: k in marks && k != conv.contactNumber ==> r[k] == marks[k]
  {
  }

  /** Right after a click, with the same count, the conversation has no unread messages. */
  lemma ClickClearsUnread(marks: map<string, int>, conv: Conversation)
    ensures UnreadCount(ClickedMarks(marks, conv), conv) == 0
    ensures !ShowsBadge(ClickedMarks(marks, conv), conv)
  {
  }

  /** A click changes no other conversation's unread count. */
  lemma ClickKeepsOtherUnread(marks: map<string, int>, conv: Conversation, other: Conversation)
    requires other.contactNumber != conv.contactNumber
    ensures UnreadCount(ClickedMarks(marks, conv), other) == UnreadCount(marks, other)
  {
  }

  /** A new chat sets that contact's watermark to 0 and leaves every other entry. */
  lemma NewChatMarksFrame(marks: map<string, int>, contactNumber: string)
    ensures var r := NewChatMarks(marks, contactNumber);
      && r.Keys == marks.Keys + {contactNumber}
      && Watermark(r, contactNumber) == 0
      && forall k :: k in marks && k != contactNumber ==> r[k] == marks[k]
  {
  }

  /** After a new chat with a contact, every message it reports counts as unread. */
  lemma NewChatUnread(marks: map<string, int>, conv: Conversation)
    ensures UnreadCount(NewChatMarks(marks, conv.contactNumber), conv) ==
            if MessageCount(conv) > 0 then MessageCount(conv) else 0
  {
  }

  /** Watermarks are not monotone: starting a new chat with a contact that
      was read up to 5 brings its watermark back to 0. */
  lemma NewChatLowersWatermark()
    ensures var marks := map["+15550100" := 5];
      Watermark(NewChatMarks(marks, "+15550100"), "+15550100") == 0 < Watermark(marks, "+15550100")
  {
  }

  /** The conversation list's state. */
  class Sidebar {
    var conversations: seq<Conversation>
    var loading: bool
    var lastRead: map<string, int>

    constructor ()
      ensures conversations == [] && loading && lastRead == map[]
    {
      conversations := [];
      loading := true;
      lastRead := map[];
    }

    /** The mount effect: adopt the parsed stored map; a missing or
        unparsable item leaves the map as it was. */
    method LoadStoredMarks(storage: LocalStorage)
      modifies this`lastRead
      ensures storage.item.Parsed? ==> lastRead == storage.item.marks
      ensures !storage.item.Parsed? ==> lastRead == old(lastRead)
    {
      var stored := storage.item;
      if stored.Parsed? {
        lastRead := stored.marks;
      }
    }

    /** `loadConversations`, given the outcome of the fetch: a success
        replaces the list wholesale (empty if the field is missing), a
        failure keeps it; either way loading ends. */
    method LoadConversations(fetch: Fetch<ConversationsData>)
      modifies this`conversations, this`loading
      ensures fetch.Fetched? ==> conversations == fetch.data.conversations.GetOr([])
      ensures fetch.FetchFailed? ==> conversations == old(conversations)
      ensures !loading
    {
      if fetch.Fetched? {
        conversations := fetch.data.conversations.GetOr([]);
      }
      loading := false;
    }

    /** `handleConversationClick`: overwrite the watermark and persist the same map. */
    method HandleConversationClick(conv: Conversation, storage: LocalStorage)
      modifies this`lastRead, storage
      ensures lastRead == ClickedMarks(old(lastRead), conv)
      ensures storage.item == Parsed(lastRead)
    {
      var newLastRead := lastRead[conv.contactNumber := MessageCount(conv)];
      lastRead := newLastRead;
      storage.item := Parsed(newLastRead);
    }

    /** `handleNewChat`: overwrite the watermark with 0 and persist the same map. */
    method HandleNewChat(contactNumber: string, storage: LocalStorage)
      modifies this`lastRead, storage
      ensures lastRead == NewChatMarks(old(lastRead), contactNumber)
      ensures storage.item == Parsed(lastRead)
    {
      var newLastRead := lastRead[contactNumber := 0];
      lastRead := newLastRead;
      storage.item := Parsed(newLastRead);
    }

    /** The badge count drawn next to each listed conversation. */
    function UnreadCounts(): (r: seq<nat>)
      reads this
      ensures |r| == |conversations|
      ensures forall i :: 0 <= i < |r| ==> r[i] == UnreadCount(lastRead, conversations[i])
    {
      seq(|conversations|, i requires 0 <= i < |conversations| reads this => UnreadCount(lastRead, conversations[i]))
    }
  }
}
