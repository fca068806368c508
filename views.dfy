/**
 * Three backend endpoints: the messages list (group routing and the
 * received+sent merge), send-message validation, and the contact profile
 * (first-match lookup and response shaping). Each call into the messaging
 * controller's client is a parameter: its decoded JSON, or the exception
 * it raised.
 */
module Views {
  import opened Wrappers
  import opened PyValues
  import opened MessageMerge

  /** The keyword arguments of the client's `get_messages`. */
  datatype MessageQuery = MessageQuery(sender: Option<string>, groupId: Option<string>, recipient: Option<string>)

  /** What a client call did: returned decoded JSON, or raised. */
  datatype Call<+T> = Returned(data: T) | Raised(reason: string)

  /** A messages payload; `messages` is missing when the key is absent. */
  datatype MessagesData = MessagesData(messages: Option<seq<Row>>)

  /** One conversation dictionary. `isGroup` is `None` when the key is
      missing; the other fields read as `PyNone` when missing. */
  datatype Conversation = Conversation(
    contactNumber: PyValue,
    contactName: PyValue,
    isGroup: Option<PyValue>,
    groupId: PyValue,
    lastMessageAt: PyValue
  )

  datatype ConversationsData = ConversationsData(conversations: Option<seq<Conversation>>)

  /** The contact-profile response body. */
  datatype Profile = Profile(
    contactNumber: PyValue,
    contactName: PyValue,
    isGroup: PyValue,
    groupId: PyValue,
    messageCount: nat,
    lastMessageAt: PyValue
  )

  datatype Body<+T> = Payload(value: T) | ErrorBody(error: string)

  datatype Reply<+T> = Reply(status: int, body: Body<T>)

  const Ok200 := 200
  const Created201 := 201
  const BadRequest400 := 400
  const NotFound404 := 404
  const ServerError500 := 500

  const MissingFields := "Both 'to' and 'message' fields are required"
  const MissingContact := "Contact parameter is required"
  const ContactNotFound := "Contact not found"

  /** A call's result returned as is, or its exception as a 500. */
  function Relay<T>(call: Call<T>): Reply<T> {
    match call
    case Returned(d) => Reply(Ok200, Payload(d))
    case Raised(e) => Reply(ServerError500, ErrorBody(e))
  }

  /** `data.get('messages', [])`. */
  function Rows(data: MessagesData): seq<Row> {
    data.messages.GetOr([])
  }

  /** `contact.endswith('=')`: group ids are base64 and end in `=`. */
  predicate IsGroupId(contact: string) {
    |contact| > 0 && contact[|contact| - 1] == '='
  }

  // ---------------------------------------------------------------------
  // messages_list

  /** `messages_list`. A truthy `contact` ending in `=` is relayed from the
      group query; any other truthy `contact` gets the merge of the rows
      received from it and sent to it. A failing sent query is replaced by
      an unfiltered query whose rows are discarded, leaving the sent list
      empty. Without `contact`, the `sender`/`group_id` query is relayed. */
  method MessagesList(
    contact: Option<string>, sender: Option<string>, groupId: Option<string>,
    getMessages: MessageQuery -> Call<MessagesData>)
    returns (reply: Reply<MessagesData>)
    ensures contact.None? || contact.value == "" ==>
              reply == Relay(getMessages(MessageQuery(sender, groupId, None)))
    ensures contact.Some? && IsGroupId(contact.value) ==>
              reply == Relay(getMessages(MessageQuery(None, contact, None)))
    ensures contact.Some? && contact.value != "" && !IsGroupId(contact.value) ==>
              var received := getMessages(MessageQuery(contact, None, None));
              var sent := getMessages(MessageQuery(None, None, contact));
              var fallback := getMessages(MessageQuery(None, None, None));
              && (received.Raised? ==> reply.status == ServerError500)
              && (received.Returned? && sent.Returned? ==>
                    reply == Reply(Ok200, Payload(MessagesData(Some(Merged(Rows(received.data), Rows(sent.data)))))))
              && (received.Returned? && sent.Raised? && fallback.Returned? ==>
                    reply == Reply(Ok200, Payload(MessagesData(Some(Merged(Rows(received.data), []))))))
              && (received.Returned? && sent.Raised? && fallback.Raised? ==> reply.status == ServerError500)
  {
    if contact.Some? && contact.value != "" {
      if IsGroupId(contact.value) {
        reply := Relay(getMessages(MessageQuery(None, contact, None)));
      } else {
        var receivedCall := getMessages(MessageQuery(contact, None, None));
        if receivedCall.Raised? {
          return Reply(ServerError500, ErrorBody(receivedCall.reason));
        }
        var receivedMessages := Rows(receivedCall.data);
        var sentMessages: seq<Row>;
        var sentCall := getMessages(MessageQuery(None, None, contact));
        if sentCall.Returned? {
          sentMessages := Rows(sentCall.data);
        } else {
          var allCall := getMessages(MessageQuery(None, None, None));
          if allCall.Raised? {
            return Reply(ServerError500, ErrorBody(allCall.reason));
          }
          sentMessages := [];
        }
        var allMessages := MergeMessages(receivedMessages, sentMessages);
        reply := Reply(Ok200, Payload(MessagesData(Some(allMessages))));
      }
    } else {
      reply := Relay(getMessages(MessageQuery(sender, groupId, None)));
    }
  }

  // ---------------------------------------------------------------------
  // send_message

  /** `send_message`: 400 unless both `to` and `message` are truthy;
      otherwise both are forwarded unchanged and the result is a 201. */
  function SendMessage<T>(to: PyValue, message: PyValue, send: (PyValue, PyValue) -> Call<T>): (reply: Reply<T>)
    ensures reply.status == BadRequest400 <==> !Truthy(to) || !Truthy(message)
    ensures reply.status == BadRequest400 ==> reply.body == ErrorBody(MissingFields)
    ensures reply.status == Created201 <==> Truthy(to) && Truthy(message) && send(to, message).Returned?
    ensures reply.status == Created201 ==> reply.body == Payload(send(to, message).data)
    ensures reply.status == ServerError500 <==> Truthy(to) && Truthy(message) && send(to, message).Raised?
  {
    if !Truthy(to) || !Truthy(message) then Reply(BadRequest400, ErrorBody(MissingFields))
    else
      match send(to, message)
      case Returned(d) => Reply(Created201, Payload(d))
      case Raised(e) => Reply(ServerError500, ErrorBody(e))
  }

  // ---------------------------------------------------------------------
  // contact_profile

  /** `conv.get('contact_number') == contact`. */
  predicate Matches(conv: Conversation, contact: string) {
    PyEq(conv.contactNumber, PyStr(contact))
  }

  /** `conversations[i]` is the first conversation that matches. */
  predicate IsFirstMatch(conversations: seq<Conversation>, i: int, contact: string)
    requires 0 <= i < |conversations|
  {
    Matches(conversations[i], contact) && forall j :: 0 <= j < i ==> !Matches(conversations[j], contact)
  }

  /** The lookup loop: the first matching conversation, if any. */
  method FindContact(conversations: seq<Conversation>, contact: string) returns (found: Option<Conversation>)
    ensures found.None? <==> forall i :: 0 <= i < |conversations| ==> !Matches(conversations[i], contact)
    ensures forall i :: 0 <= i < |conversations| && IsFirstMatch(conversations, i, contact) ==>
              found == Some(conversations[i])
  {
    found := None;
    var i := 0;
    while i < |conversations|
      invariant 0 <= i <= |conversations|
      invariant forall j :: 0 <= j < i ==> !Matches(conversations[j], contact)
    {
      if Matches(conversations[i], contact) {
        found := Some(conversations[i]);
        assert IsFirstMatch(conversations, i, contact);
        return;
      }
      i := i + 1;
    }
  }

  /** The messages query that counts a contact's messages: by group id when
      the conversation's `is_group` is truthy, else by sender. */
  function CountQuery(conv: Conversation, contact: string): MessageQuery {
    if Truthy(conv.isGroup.GetOr(PyNone)) then MessageQuery(None, Some(contact), None)
    else MessageQuery(Some(contact), None, None)
  }

  /** The response body; `is_group` defaults to `False` when missing. */
  function ProfileOf(conv: Conversation, messageCount: nat): Profile {
    Profile(conv.contactNumber, conv.contactName, conv.isGroup.GetOr(PyBool(false)),
            conv.groupId, messageCount, conv.lastMessageAt)
  }

  /** `contact_profile`: 400 without a contact, 404 when no conversation
      matches, otherwise the first match's fields with the number of rows
      its count query returned. */
  method ContactProfile(
    contact: Option<string>, getConversations: Call<ConversationsData>,
    getMessages: MessageQuery -> Call<MessagesData>)
    returns (reply: Reply<Profile>)
    ensures contact.None? || contact.value == "" ==> reply == Reply(BadRequest400, ErrorBody(MissingContact))
    ensures contact.Some? && contact.value != "" && getConversations.Raised? ==> reply.status == ServerError500
    ensures contact.Some? && contact.value != "" && getConversations.Returned? ==>
              var conversations := getConversations.data.conversations.GetOr([]);
              && ((forall i :: 0 <= i < |conversations| ==> !Matches(conversations[i], contact.value))
                  ==> reply == Reply(NotFound404, ErrorBody(ContactNotFound)))
              && (forall i :: 0 <= i < |conversations| && IsFirstMatch(conversations, i, contact.value) ==>
                    var counted := getMessages(CountQuery(conversations[i], contact.value));
                    && (counted.Returned? ==>
                          reply == Reply(Ok200, Payload(ProfileOf(conversations[i], |Rows(counted.data)|))))
                    && (counted.Raised? ==> reply.status == ServerError500))
  {
    if contact.None? || contact.value == "" {
      return Reply(BadRequest400, ErrorBody(MissingContact));
    }
    if getConversations.Raised? {
      return Reply(ServerError500, ErrorBody(getConversations.reason));
    }
    var conversations := getConversations.data.conversations.GetOr([]);
    var contactInfo := FindContact(conversations, contact.value);
    if contactInfo.None? {
      return Reply(NotFound404, ErrorBody(ContactNotFound));
    }
    var conv := contactInfo.value;
    var messagesCall := getMessages(CountQuery(conv, contact.value));
    if messagesCall.Raised? {
      return Reply(ServerError500, ErrorBody(messagesCall.reason));
    }
    var messages := Rows(messagesCall.data);
    reply := Reply(Ok200, Payload(ProfileOf(conv, |messages|)));
  }
}
