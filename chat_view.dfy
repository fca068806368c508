/**
 * The thread view of one conversation: which fetched messages are shown,
 * which side each is drawn on, where a new visual group starts and which
 * header it carries, the "mark as read while viewing" write, and the
 * compose box's send cycle.
 */
module ChatView {
  import opened Wrappers
  import opened JsValues
  import opened ReadState

  /** One row of the `messages` array returned for a contact. */
  datatype Message = Message(
    id: JsValue,
    body: JsValue,          // message_body
    senderNumber: JsValue,  // sender_number
    senderName: JsValue,    // sender_name
    isOutgoing: JsValue,    // is_outgoing
    receivedAt: JsValue     // received_at
  )

  /** The `data` of a messages response; `messages` may be missing. */
  datatype MessagesData = MessagesData(messages: Option<seq<Message>>)

  /** The `data` of a contact-profile response, as far as the view reads it. */
  datatype ContactInfo = ContactInfo(messageCount: Option<int>, contactName: JsValue, isGroup: JsValue)

  /** What the view submits to the send endpoint. */
  datatype SendRequest = SendRequest(to: string, text: string)

  const LoadMessagesFailed := "Failed to load messages"
  const LoadContactInfoFailed := "Failed to load contact info"
  const SendFailed := "Failed to send message. Please try again."

  // ---------------------------------------------------------------------
  // Dead-letter filter

  /** The filter's test: the body is a truthy string whose trim is non-empty. */
  predicate HasVisibleBody(m: Message) {
    Truthy(m.body) && m.body.JsStr? && |Trim(m.body.s)| > 0
  }

  /** A message is shown exactly when its body is a string that is not blank. */
  lemma HasVisibleBodyIff(m: Message)
    ensures HasVisibleBody(m) <==> m.body.JsStr? && !IsBlank(m.body.s)
  {
    if m.body.JsStr? {
      TrimEmptyIffBlank(m.body.s);
    }
  }

  /** `msgs.filter(...)`: the shown messages. */
  function VisibleMessages(msgs: seq<Message>): (r: seq<Message>)
    ensures |r| <= |msgs|
    ensures forall i :: 0 <= i < |r| ==> HasVisibleBody(r[i])
  {
    if msgs == [] then []
    else (if HasVisibleBody(msgs[0]) then [msgs[0]] else []) + VisibleMessages(msgs[1..])
  }

  /** The filter keeps relative order: filtering a concatenation is the
      concatenation of the filtered parts. */
  lemma {:induction false} VisibleMessagesAppend(a: seq<Message>, b: seq<Message>)
    ensures VisibleMessages(a + b) == VisibleMessages(a) + VisibleMessages(b)
  {
    if a == [] {
      assert a + b == b;
    } else {
      assert (a + b)[1..] == a[1..] + b;
      VisibleMessagesAppend(a[1..], b);
    }
  }

  /** Every shown message occurs as often as it was fetched; nothing else is shown. */
  lemma {:induction false} VisibleMessagesCount(msgs: seq<Message>, m: Message)
    ensures multiset(VisibleMessages(msgs))[m] ==
            if HasVisibleBody(m) then multiset(msgs)[m] else 0
  {
    if msgs != [] {
      VisibleMessagesCount(msgs[1..], m);
      assert msgs == [msgs[0]] + msgs[1..];
    }
  }

  /** Bodies "", "   " and null are dropped; "hi" is kept. */
  lemma VisibleMessagesExample(id: JsValue)
    ensures VisibleMessages([
              Message(id, JsStr(""), JsUndefined, JsUndefined, JsUndefined, JsUndefined),
              Message(id, JsStr("   "), JsUndefined, JsUndefined, JsUndefined, JsUndefined),
              Message(id, JsNull, JsUndefined, JsUndefined, JsUndefined, JsUndefined),
              Message(id, JsStr("hi"), JsUndefined, JsUndefined, JsUndefined, JsUndefined)])
            == [Message(id, JsStr("hi"), JsUndefined, JsUndefined, JsUndefined, JsUndefined)]
  {
    var none := JsUndefined;
    var empty := Message(id, JsStr(""), none, none, none, none);
    var spaces := Message(id, JsStr("   "), none, none, none, none);
    var missing := Message(id, JsNull, none, none, none, none);
    var hi := Message(id, JsStr("hi"), none, none, none, none);
    assert TrimStart("   ") == TrimStart("  ") == TrimStart(" ") == "";
    assert !HasVisibleBody(spaces);
    assert TrimStart("hi") == "hi" && TrimEnd("hi") == "hi";
    assert HasVisibleBody(hi);
    var msgs := [empty, spaces, missing, hi];
    assert VisibleMessages(msgs[3..]) == [hi];
    assert msgs[2..][1..] == msgs[3..];
    assert VisibleMessages(msgs[2..]) == [hi];
    assert msgs[1..][1..] == msgs[2..];
    assert VisibleMessages(msgs[1..]) == [hi];
    assert msgs[1..] == msgs[1..];
  }

  // ---------------------------------------------------------------------
  // Outgoing classifier

  /** The fallback used when no number is configured (or it is empty). */
  const DefaultNumber := "+1234567890"

  /** The local number: the configured one unless it is missing or empty,
      in which case the built-in default. */
  function MyNumber(configured: Option<string>): (r: string)
    ensures r != ""
    ensures configured.Some? && configured.value != "" ==> r == configured.value
    ensures configured.None? || configured.value == "" ==> r == DefaultNumber
  {
    if configured.Some? && configured.value != "" then configured.value else DefaultNumber
  }

  predicate IsAsciiDigit(c: char) {
    '0' <= c <= '9'
  }

  /** `n.replace(/^\+\d{2}/, '0')`: a leading `+` and two digits become `0`. */
  function ShortNumber(n: string): (r: string) {
    if |n| >= 3 && n[0] == '+' && IsAsciiDigit(n[1]) && IsAsciiDigit(n[2]) then "0" + n[3..] else n
  }

  /** The rewrite fires exactly on `+dd…`, replacing those three characters
      by `0`; any other string is left as it is. */
  lemma ShortNumberShape(n: string)
    ensures |n| >= 3 && n[0] == '+' && IsAsciiDigit(n[1]) && IsAsciiDigit(n[2]) ==>
              |ShortNumber(n)| == |n| - 2 && ShortNumber(n)[0] == '0' && ShortNumber(n)[1..] == n[3..]
    ensures !(|n| >= 3 && n[0] == '+' && IsAsciiDigit(n[1]) && IsAsciiDigit(n[2])) ==> ShortNumber(n) == n
    ensures ShortNumber(ShortNumber(n)) == ShortNumber(n)
  {
  }

  lemma ShortNumberExample()
    ensures ShortNumber(DefaultNumber) == "034567890"
    ensures ShortNumber("+31612345678") == "0612345678"
    ensures ShortNumber("0612345678") == "0612345678"
  {
    assert DefaultNumber[3..] == "34567890";
    assert "+31612345678"[3..] == "612345678";
  }

  /** The render's `isSentByMe`: an OR of five strict comparisons. */
  predicate IsSentByMe(m: Message, myNumber: string) {
    || StrictEq(m.isOutgoing, JsNum(1))
    || StrictEq(m.isOutgoing, JsBool(true))
    || StrictEq(m.senderName, JsStr("Me"))
    || StrictEq(m.senderNumber, JsStr(myNumber))
    || StrictEq(m.senderNumber, JsStr(ShortNumber(myNumber)))
  }

  /** The classifier as a priority list of rules; the first that fires decides. */
  datatype Rule = FlagRule | SentinelNameRule | KnownNumberRule

  const ClassificationRules: seq<Rule> := [FlagRule, SentinelNameRule, KnownNumberRule]

  /** The strings that count as "me". */
  function LocalIdentities(myNumber: string): set<string> {
    {myNumber, ShortNumber(myNumber)}
  }

  predicate Fires(rule: Rule, m: Message, myNumber: string) {
    match rule
    case FlagRule => m.isOutgoing == JsNum(1) || m.isOutgoing == JsBool(true)
    case SentinelNameRule => m.senderName == JsStr("Me")
    case KnownNumberRule => m.senderNumber.JsStr? && m.senderNumber.s in LocalIdentities(myNumber)
  }

  /** The first rule of the list that fires, if any. */
  function FirstFiring(rules: seq<Rule>, m: Message, myNumber: string): (r: Option<Rule>)
    ensures r.Some? ==>
      exists k :: 0 <= k < |rules| && rules[k] == r.value && Fires(r.value, m, myNumber)
        && forall j :: 0 <= j < k ==> !Fires(rules[j], m, myNumber)
    ensures r.None? ==> forall i :: 0 <= i < |rules| ==> !Fires(rules[i], m, myNumber)
  {
    if rules == [] then None
    else if Fires(rules[0], m, myNumber) then Some(rules[0])
    else
      var r := FirstFiring(rules[1..], m, myNumber);
      if r.Some? then
        var k :| 0 <= k < |rules[1..]| && rules[1..][k] == r.value && Fires(r.value, m, myNumber)
                 && forall j :: 0 <= j < k ==> !Fires(rules[1..][j], m, myNumber);
        assert rules[k + 1] == r.value;
        assert forall j :: 0 <= j < k + 1 ==> !Fires(rules[j], m, myNumber) by {
          forall j | 0 < j < k + 1 ensures !Fires(rules[j], m, myNumber) {
            assert rules[j] == rules[1..][j - 1];
          }
        }
        r
      else r
  }

  /** The boolean chain agrees with the rule list: a message is outgoing
      exactly when some rule fires. */
  lemma ClassifierFollowsRules(m: Message, myNumber: string)
    ensures IsSentByMe(m, myNumber) <==> FirstFiring(ClassificationRules, m, myNumber).Some?
  {
    var rules := ClassificationRules;
    assert rules[1..] == [SentinelNameRule, KnownNumberRule];
    assert rules[1..][1..] == [KnownNumberRule];
    assert rules[1..][1..][1..] == [];
    assert FirstFiring(rules[1..][1..], m, myNumber) ==
      if Fires(KnownNumberRule, m, myNumber) then Some(KnownNumberRule) else None;
    assert FirstFiring(rules[1..], m, myNumber) ==
      if Fires(SentinelNameRule, m, myNumber) then Some(SentinelNameRule)
      else FirstFiring(rules[1..][1..], m, myNumber);
    assert FirstFiring(ClassificationRules, m, myNumber) ==
      if Fires(FlagRule, m, myNumber) then Some(FlagRule)
      else if Fires(SentinelNameRule, m, myNumber) then Some(SentinelNameRule)
      else if Fires(KnownNumberRule, m, myNumber) then Some(KnownNumberRule)
      else None;
  }

  /** A flag that is exactly `1` or `true` makes a message outgoing, whoever sent it. */
  lemma FlagWins(m: Message, myNumber: string)
    requires m.isOutgoing == JsNum(1) || m.isOutgoing == JsBool(true)
    ensures IsSentByMe(m, myNumber)
  {
  }

  /** Without such a flag, a message is outgoing iff its sender name is "Me"
      or its sender number is the configured number or its short form. A
      truthy flag other than `1`/`true` (say `2` or `"1"`) does not count. */
  lemma FallbackRules(m: Message, myNumber: string)
    requires m.isOutgoing != JsNum(1) && m.isOutgoing != JsBool(true)
    ensures IsSentByMe(m, myNumber) <==>
            m.senderName == JsStr("Me")
            || m.senderNumber == JsStr(myNumber)
            || m.senderNumber == JsStr(ShortNumber(myNumber))
  {
  }

  // ---------------------------------------------------------------------
  // Group boundaries and headers

  /** The render's `isFirstInGroup` for the message at `i`. */
  predicate IsFirstInGroup(msgs: seq<Message>, i: nat, myNumber: string)
    requires i < |msgs|
  {
    || i == 0
    || IsSentByMe(msgs[i], myNumber) != IsSentByMe(msgs[i - 1], myNumber)
    || (!IsSentByMe(msgs[i], myNumber) && !StrictEq(msgs[i - 1].senderNumber, msgs[i].senderNumber))
  }

  /** One flag per shown message, as the render computes them. */
  function GroupStarts(msgs: seq<Message>, myNumber: string): (r: seq<bool>)
    ensures |r| == |msgs|
    ensures forall i :: 0 <= i < |msgs| ==> r[i] == IsFirstInGroup(msgs, i, myNumber)
  {
    seq(|msgs|, i requires 0 <= i < |msgs| => IsFirstInGroup(msgs, i, myNumber))
  }

  /** The boundary rules, one by one. */
  lemma GroupBoundaryRules(msgs: seq<Message>, i: nat, myNumber: string)
    requires 0 < i < |msgs|
    ensures IsFirstInGroup(msgs, 0, myNumber)
    ensures IsSentByMe(msgs[i - 1], myNumber) != IsSentByMe(msgs[i], myNumber)
            ==> IsFirstInGroup(msgs, i, myNumber)
    ensures !IsSentByMe(msgs[i - 1], myNumber) && !IsSentByMe(msgs[i], myNumber)
            && msgs[i - 1].senderNumber != msgs[i].senderNumber
            ==> IsFirstInGroup(msgs, i, myNumber)
    ensures IsSentByMe(msgs[i - 1], myNumber) && IsSentByMe(msgs[i], myNumber)
            ==> !IsFirstInGroup(msgs, i, myNumber)
    ensures !IsSentByMe(msgs[i - 1], myNumber) && !IsSentByMe(msgs[i], myNumber)
            && StrictEq(msgs[i - 1].senderNumber, msgs[i].senderNumber)
            ==> !IsFirstInGroup(msgs, i, myNumber)
  {
  }

  /** [in/A, in/A, out, in/B] gives the flags [T, F, T, T]. */
  lemma GroupStartsExample(myNumber: string)
    requires myNumber != "A" && myNumber != "B"
    ensures
      var inA := Message(JsNum(1), JsStr("x"), JsStr("A"), JsStr("A"), JsNum(0), JsUndefined);
      var out := Message(JsNum(3), JsStr("x"), JsStr(myNumber), JsStr("Me"), JsNum(1), JsUndefined);
      var inB := Message(JsNum(4), JsStr("x"), JsStr("B"), JsStr("B"), JsNum(0), JsUndefined);
      GroupStarts([inA, inA, out, inB], myNumber) == [true, false, true, true]
  {
    var inA := Message(JsNum(1), JsStr("x"), JsStr("A"), JsStr("A"), JsNum(0), JsUndefined);
    var out := Message(JsNum(3), JsStr("x"), JsStr(myNumber), JsStr("Me"), JsNum(1), JsUndefined);
    var inB := Message(JsNum(4), JsStr("x"), JsStr("B"), JsStr("B"), JsNum(0), JsUndefined);
    var msgs := [inA, inA, out, inB];
    ShortNumberShape(myNumber);
    assert !IsSentByMe(inA, myNumber) && IsSentByMe(out, myNumber) && !IsSentByMe(inB, myNumber);
    assert GroupStarts(msgs, myNumber)[1] == false;
  }

  /** Two consecutive messages share a visual group: both are outgoing, or
      both are incoming from the same (strictly equal) sender number. */
  predicate SameGroup(prev: Message, m: Message, myNumber: string) {
    || (IsSentByMe(prev, myNumber) && IsSentByMe(m, myNumber))
    || (!IsSentByMe(prev, myNumber) && !IsSentByMe(m, myNumber) && StrictEq(prev.senderNumber, m.senderNumber))
  }

  /** Cuts `xs` into runs: the first element joins the run that follows it
      when `joins` holds of it and its successor, and stands alone otherwise. */
  function GroupBy<T>(xs: seq<T>, joins: (T, T) -> bool): (gs: seq<seq<T>>)
    ensures xs != [] ==> gs != []
    decreases |xs|
  {
    if xs == [] then []
    else
      var rest := GroupBy(xs[1..], joins);
      if |xs| > 1 && joins(xs[0], xs[1]) then [[xs[0]] + rest[0]] + rest[1..]
      else [[xs[0]]] + rest
  }

  /** The runs laid end to end. */
  function Concat<T>(gs: seq<seq<T>>): seq<T> {
    if gs == [] then [] else gs[0] + Concat(gs[1..])
  }

  /** `i` is the index, in the concatenation, at which some run begins. */
  predicate StartsGroup<T>(gs: seq<seq<T>>, i: int)
    decreases |gs|
  {
    gs != [] && (i == 0 || (i > 0 && StartsGroup(gs[1..], i - |gs[0]|)))
  }

  /** The runs are non-empty and lay `xs` out again in order. */
  lemma {:induction false} GroupByPartition<T>(xs: seq<T>, joins: (T, T) -> bool)
    ensures Concat(GroupBy(xs, joins)) == xs
    ensures forall k :: 0 <= k < |GroupBy(xs, joins)| ==> GroupBy(xs, joins)[k] != []
    decreases |xs|
  {
    if xs != [] {
      var rest := GroupBy(xs[1..], joins);
      GroupByPartition(xs[1..], joins);
      var gs' := GroupBy(xs, joins);
      if |xs| > 1 && joins(xs[0], xs[1]) {
        assert gs'[1..] == rest[1..];
        calc {
          Concat(gs');
          ([xs[0]] + rest[0]) + Concat(rest[1..]);
          [xs[0]] + (rest[0] + Concat(rest[1..]));
          [xs[0]] + Concat(rest);
        }
        forall k | 1 <= k < |gs'| ensures gs'[k] != [] {
          assert gs'[k] == rest[k];
        }
      } else {
        assert gs'[1..] == rest;
        forall k | 1 <= k < |gs'| ensures gs'[k] != [] {
          assert gs'[k] == rest[k - 1];
        }
      }
      assert [xs[0]] + xs[1..] == xs;
    }
  }

  /** Inside a run every element joins its predecessor. */
  lemma {:induction false} GroupByRuns<T>(xs: seq<T>, joins: (T, T) -> bool)
    ensures forall k, j :: 0 <= k < |GroupBy(xs, joins)| && 0 < j < |GroupBy(xs, joins)[k]| ==>
      joins(GroupBy(xs, joins)[k][j - 1], GroupBy(xs, joins)[k][j])
    decreases |xs|
  {
    if xs != [] {
      var t := xs[1..];
      var rest := GroupBy(t, joins);
      GroupByRuns(t, joins);
      var gs' := GroupBy(xs, joins);
      if |xs| > 1 && joins(xs[0], xs[1]) {
        GroupByPartition(t, joins);
        assert t == rest[0] + Concat(rest[1..]);
        var g := [xs[0]] + rest[0];
        forall j | 0 < j < |g| ensures joins(g[j - 1], g[j]) {
          if j > 1 {
            assert g[j - 1] == rest[0][j - 2] && g[j] == rest[0][j - 1];
          }
        }
        forall k | 1 <= k < |gs'| ensures gs'[k] == rest[k] {}
      } else {
        forall k | 1 <= k < |gs'| ensures gs'[k] == rest[k - 1] {}
      }
    }
  }

  /** The first element of a run does not join the last element of the run before. */
  lemma {:induction false} GroupByBoundaries<T>(xs: seq<T>, joins: (T, T) -> bool)
    ensures forall k :: 0 < k < |GroupBy(xs, joins)| && GroupBy(xs, joins)[k - 1] != [] && GroupBy(xs, joins)[k] != [] ==>
      !joins(GroupBy(xs, joins)[k - 1][|GroupBy(xs, joins)[k - 1]| - 1], GroupBy(xs, joins)[k][0])
    decreases |xs|
  {
    if xs != [] {
      var t := xs[1..];
      var rest := GroupBy(t, joins);
      GroupByBoundaries(t, joins);
      var gs' := GroupBy(xs, joins);
      if t != [] {
        GroupByPartition(t, joins);
        assert t == rest[0] + Concat(rest[1..]);
        assert rest[0][0] == t[0];
      }
      if |xs| > 1 && joins(xs[0], xs[1]) {
        forall k | 1 <= k < |gs'| ensures gs'[k] == rest[k] {}
        assert gs'[0][|gs'[0]| - 1] == rest[0][|rest[0]| - 1];
      } else {
        forall k | 1 <= k < |gs'| ensures gs'[k] == rest[k - 1] {}
      }
    }
  }

  /** A run begins at index 0 and wherever an element does not join its predecessor. */
  lemma {:induction false} GroupByStarts<T>(xs: seq<T>, joins: (T, T) -> bool)
    ensures forall i :: 0 <= i < |xs| ==>
      (StartsGroup(GroupBy(xs, joins), i) <==> i == 0 || !joins(xs[i - 1], xs[i]))
    ensures forall i :: StartsGroup(GroupBy(xs, joins), i) ==> 0 <= i < |xs|
    decreases |xs|
  {
    if xs != [] {
      var t := xs[1..];
      var rest := GroupBy(t, joins);
      GroupByStarts(t, joins);
      var gs' := GroupBy(xs, joins);
      if |xs| > 1 && joins(xs[0], xs[1]) {
        GroupByPartition(t, joins);
        var r0 := rest[0];
        assert r0 != [];
        assert gs'[1..] == rest[1..];
        forall i | 1 <= i
          ensures StartsGroup(gs', i) <==> i > 1 && StartsGroup(rest, i - 1)
        {
          assert StartsGroup(gs', i) <==> StartsGroup(rest[1..], i - 1 - |r0|);
          if i == 1 {
            assert !StartsGroup(rest[1..], -|r0|);
          }
        }
      } else {
        assert gs'[1..] == rest;
        forall i | 1 <= i
          ensures StartsGroup(gs', i) <==> StartsGroup(rest, i - 1)
        {
        }
      }
      assert StartsGroup(gs', 0);
      forall i | StartsGroup(gs', i) ensures 0 <= i < |xs| {
        if i > 0 {
          assert StartsGroup(rest, i - 1);
        }
      }
      forall i | 1 <= i < |xs|
        ensures StartsGroup(gs', i) <==> !joins(xs[i - 1], xs[i])
      {
        if i > 1 {
          assert xs[i - 1] == t[i - 2] && xs[i] == t[i - 1];
        }
      }
    }
  }

  /** The shown messages cut into the visual groups the render draws. */
  function DisplayGroups(msgs: seq<Message>, myNumber: string): seq<seq<Message>> {
    GroupBy(msgs, (prev, m) => SameGroup(prev, m, myNumber))
  }

  /** The groups are non-empty, lay the messages out again in order, and a
      group begins exactly where the render sets `isFirstInGroup`. */
  lemma DisplayGroupsStarts(msgs: seq<Message>, myNumber: string)
    ensures Concat(DisplayGroups(msgs, myNumber)) == msgs
    ensures forall k :: 0 <= k < |DisplayGroups(msgs, myNumber)| ==> DisplayGroups(msgs, myNumber)[k] != []
    ensures forall i :: 0 <= i < |msgs| ==>
      (GroupStarts(msgs, myNumber)[i] <==> StartsGroup(DisplayGroups(msgs, myNumber), i))
  {
    var joins := (prev, m) => SameGroup(prev, m, myNumber);
    GroupByPartition(msgs, joins);
    GroupByStarts(msgs, joins);
  }

  /** A run of messages in which each shares a group with its predecessor
      is on one side and, when incoming, has one sender number. */
  lemma {:induction false} SameGroupRun(g: seq<Message>, myNumber: string)
    requires forall j :: 0 < j < |g| ==> SameGroup(g[j - 1], g[j], myNumber)
    ensures forall j :: 0 < j < |g| ==> IsSentByMe(g[j], myNumber) == IsSentByMe(g[0], myNumber)
    ensures forall j :: 0 < j < |g| && !IsSentByMe(g[0], myNumber) ==> g[j].senderNumber == g[0].senderNumber
    decreases |g|
  {
    if |g| > 1 {
      var n := |g| - 1;
      SameGroupRun(g[..n], myNumber);
      assert g[..n][0] == g[0] && g[..n][n - 1] == g[n - 1];
      assert SameGroup(g[n - 1], g[n], myNumber);
    }
  }

  /** Every group is on one side and an incoming group has one sender
      number; no group could have been joined to the one before it. */
  lemma DisplayGroupsUniform(msgs: seq<Message>, myNumber: string)
    ensures forall k, j :: 0 <= k < |DisplayGroups(msgs, myNumber)| && 0 < j < |DisplayGroups(msgs, myNumber)[k]| ==>
      IsSentByMe(DisplayGroups(msgs, myNumber)[k][j], myNumber) == IsSentByMe(DisplayGroups(msgs, myNumber)[k][0], myNumber)
    ensures forall k, j ::
      (0 <= k < |DisplayGroups(msgs, myNumber)| && 0 < j < |DisplayGroups(msgs, myNumber)[k]|
       && !IsSentByMe(DisplayGroups(msgs, myNumber)[k][0], myNumber)) ==>
      DisplayGroups(msgs, myNumber)[k][j].senderNumber == DisplayGroups(msgs, myNumber)[k][0].senderNumber
    ensures forall k ::
      (0 < k < |DisplayGroups(msgs, myNumber)|
       && DisplayGroups(msgs, myNumber)[k - 1] != [] && DisplayGroups(msgs, myNumber)[k] != []) ==>
      !SameGroup(DisplayGroups(msgs, myNumber)[k - 1][|DisplayGroups(msgs, myNumber)[k - 1]| - 1],
                 DisplayGroups(msgs, myNumber)[k][0], myNumber)
  {
    var joins := (prev, m) => SameGroup(prev, m, myNumber);
    var gs := GroupBy(msgs, joins);
    GroupByRuns(msgs, joins);
    GroupByBoundaries(msgs, joins);
    forall k | 0 <= k < |gs|
      ensures forall j :: 0 < j < |gs[k]| ==> IsSentByMe(gs[k][j], myNumber) == IsSentByMe(gs[k][0], myNumber)
      ensures forall j :: 0 < j < |gs[k]| && !IsSentByMe(gs[k][0], myNumber) ==>
                gs[k][j].senderNumber == gs[k][0].senderNumber
    {
      forall j | 0 < j < |gs[k]| ensures SameGroup(gs[k][j - 1], gs[k][j], myNumber) {
        assert joins(gs[k][j - 1], gs[k][j]);
      }
      SameGroupRun(gs[k], myNumber);
    }
    forall k | 0 < k < |gs| && gs[k - 1] != [] && gs[k] != []
      ensures !SameGroup(gs[k - 1][|gs[k - 1]| - 1], gs[k][0], myNumber)
    {
      assert !joins(gs[k - 1][|gs[k - 1]| - 1], gs[k][0]);
    }
  }

  /** [in/A, in/A, out, in/B] is drawn as three groups of sizes 2, 1 and 1. */
  lemma DisplayGroupsExample(myNumber: string)
    requires myNumber != "A" && myNumber != "B"
    ensures
      var inA := Message(JsNum(1), JsStr("x"), JsStr("A"), JsStr("A"), JsNum(0), JsUndefined);
      var out := Message(JsNum(3), JsStr("x"), JsStr(myNumber), JsStr("Me"), JsNum(1), JsUndefined);
      var inB := Message(JsNum(4), JsStr("x"), JsStr("B"), JsStr("B"), JsNum(0), JsUndefined);
      DisplayGroups([inA, inA, out, inB], myNumber) == [[inA, inA], [out], [inB]]
  {
    var inA := Message(JsNum(1), JsStr("x"), JsStr("A"), JsStr("A"), JsNum(0), JsUndefined);
    var out := Message(JsNum(3), JsStr("x"), JsStr(myNumber), JsStr("Me"), JsNum(1), JsUndefined);
    var inB := Message(JsNum(4), JsStr("x"), JsStr("B"), JsStr("B"), JsNum(0), JsUndefined);
    var joins := (prev, m) => SameGroup(prev, m, myNumber);
    var msgs := [inA, inA, out, inB];
    ShortNumberShape(myNumber);
    assert !IsSentByMe(inA, myNumber) && IsSentByMe(out, myNumber) && !IsSentByMe(inB, myNumber);
    assert joins(inA, inA) && !joins(inA, out) && !joins(out, inB);
    assert msgs[3..][1..] == [];
    assert GroupBy(msgs[3..], joins) == [[inB]];
    assert msgs[2..][1..] == msgs[3..];
    assert GroupBy(msgs[2..], joins) == [[out], [inB]];
    assert msgs[1..][1..] == msgs[2..];
    assert GroupBy(msgs[1..], joins) == [[inA], [out], [inB]];
    var rest := GroupBy(msgs[1..], joins);
    assert msgs[0] == inA && msgs[1] == inA && joins(msgs[0], msgs[1]);
    assert rest[0] == [inA] && rest[1..] == [[out], [inB]];
    assert GroupBy(msgs, joins) == [[inA] + rest[0]] + rest[1..];
    assert [inA] + rest[0] == [inA, inA];
    assert [[inA, inA]] + [[out], [inB]] == [[inA, inA], [out], [inB]];
    assert DisplayGroups(msgs, myNumber) == GroupBy(msgs, joins);
  }

  /** What is drawn above a message: nothing, an incoming header (name and
      time) or an outgoing header (time only). The time is the raw
      `received_at`; its formatting is not modelled. */
  datatype Header = NoHeader | IncomingHeader(caption: JsValue, time: JsValue) | OutgoingHeader(time: JsValue)

  function HeaderAt(msgs: seq<Message>, i: nat, myNumber: string): (h: Header)
    requires i < |msgs|
    ensures h.NoHeader? <==> !IsFirstInGroup(msgs, i, myNumber)
    ensures h.IncomingHeader? <==> IsFirstInGroup(msgs, i, myNumber) && !IsSentByMe(msgs[i], myNumber)
    ensures h.OutgoingHeader? <==> IsFirstInGroup(msgs, i, myNumber) && IsSentByMe(msgs[i], myNumber)
    ensures h.IncomingHeader? && Truthy(msgs[i].senderName) ==> h.caption == msgs[i].senderName
    ensures h.IncomingHeader? && !Truthy(msgs[i].senderName) ==> h.caption == msgs[i].senderNumber
    ensures !h.NoHeader? ==> h.time == msgs[i].receivedAt
  {
    if !IsFirstInGroup(msgs, i, myNumber) then NoHeader
    else if IsSentByMe(msgs[i], myNumber) then OutgoingHeader(msgs[i].receivedAt)
    else IncomingHeader(Or(msgs[i].senderName, msgs[i].senderNumber), msgs[i].receivedAt)
  }

  // ---------------------------------------------------------------------
  // Mark read on view

  /** `contactInfo.message_count || messages.length`. */
  function ViewedCount(info: ContactInfo, shown: nat): (n: int)
    ensures info.messageCount.Some? && info.messageCount.value != 0 ==> n == info.messageCount.value
    ensures info.messageCount.None? || info.messageCount.value == 0 ==> n == shown
  {
    if info.messageCount.Some? && info.messageCount.value != 0 then info.messageCount.value else shown
  }

  /** The mark-read effect throws: it runs, and `JSON.parse` meets an item
      that does not parse (there is no `try` around it). */
  predicate MarkOnViewThrows(stored: Stored, info: Option<ContactInfo>, shown: nat) {
    info.Some? && shown > 0 && stored.Unparsable?
  }

  /** The stored item after the mark-read effect. Nothing is written unless
      contact info is loaded and at least one message is shown. A missing
      item starts from `{}`; an unparsable one makes `JSON.parse` throw
      before anything is written. */
  function MarkedOnView(stored: Stored, info: Option<ContactInfo>, shown: nat, contactId: string): Stored {
    if info.None? || shown == 0 || stored.Unparsable? then stored
    else
      var lastRead := if stored.Parsed? then stored.marks else map[];
      Parsed(lastRead[contactId := ViewedCount(info.value, shown)])
  }

  /** When the effect writes, this contact's watermark becomes the reported
      count (or the shown count if that is 0 or absent) and every other
      entry is kept; otherwise the item is untouched. */
  lemma MarkedOnViewWrites(stored: Stored, info: Option<ContactInfo>, shown: nat, contactId: string)
    ensures var r := MarkedOnView(stored, info, shown, contactId);
      if info.Some? && shown > 0 && !stored.Unparsable? then
        && r.Parsed?
        && Watermark(r.marks, contactId) == ViewedCount(info.value, shown)
        && r.marks.Keys == (if stored.Parsed? then stored.marks.Keys else {}) + {contactId}
        && (forall k :: k in r.marks && k != contactId ==> stored.Parsed? && r.marks[k] == stored.marks[k])
      else r == stored
  {
  }

  // ---------------------------------------------------------------------
  // The thread's state

  /** `!newMessage.trim()` or a send in flight disables the submit button. */
  predicate SubmitDisabled(sending: bool, newMessage: string)
  {
    sending || Trim(newMessage) == ""
  }

  lemma SubmitDisabledIff(sending: bool, newMessage: string)
    ensures SubmitDisabled(sending, newMessage) <==> sending || IsBlank(newMessage)
  {
    TrimEmptyIffBlank(newMessage);
  }

  /** The view's state for one contact. `error` is `JsNull` when no error is shown. */
  class Thread {
    const contactId: string
    const myNumber: string
    const hasOnRefresh: bool
    var messages: seq<Message>
    var newMessage: string
    var loading: bool
    var sending: bool
    var contactInfo: Option<ContactInfo>
    var error: JsValue

    /** `configured` is the build-time number setting, if any. */
    constructor (contactId: string, configured: Option<string>, hasOnRefresh: bool)
      ensures this.contactId == contactId && myNumber == MyNumber(configured) && this.hasOnRefresh == hasOnRefresh
      ensures messages == [] && newMessage == "" && loading && !sending
      ensures contactInfo.None? && error == JsNull
    {
      this.contactId := contactId;
      myNumber := MyNumber(configured);
      this.hasOnRefresh := hasOnRefresh;
      messages := [];
      newMessage := "";
      loading := true;
      sending := false;
      contactInfo := None;
      error := JsNull;
    }

    /** `loadMessages`, given the outcome of the fetch: a success replaces
        the list by its shown messages and clears the error; a failure keeps
        the stale list and sets the error. */
    method LoadMessages(fetch: Fetch<MessagesData>)
      modifies this
      ensures fetch.Fetched? ==> messages == VisibleMessages(fetch.data.messages.GetOr([])) && error == JsNull
      ensures fetch.FetchFailed? ==>
                messages == old(messages) && error == Or(fetch.serverError, JsStr(LoadMessagesFailed))
      ensures !loading
      ensures newMessage == old(newMessage) && sending == old(sending) && contactInfo == old(contactInfo)
    {
      match fetch {
        case Fetched(data) =>
          var msgs := data.messages.GetOr([]);
          messages := VisibleMessages(msgs);
          error := JsNull;
        case FetchFailed(serverError) =>
          error := Or(serverError, JsStr(LoadMessagesFailed));
      }
      loading := false;
    }

    /** `loadContactInfo`, given the outcome of the profile fetch. */
    method LoadContactInfo(fetch: Fetch<ContactInfo>)
      modifies this`contactInfo, this`error
      ensures fetch.Fetched? ==> contactInfo == Some(fetch.data) && error == JsNull
      ensures fetch.FetchFailed? ==>
                contactInfo == old(contactInfo) && error == Or(fetch.serverError, JsStr(LoadContactInfoFailed))
    {
      match fetch {
        case Fetched(data) =>
          contactInfo := Some(data);
          error := JsNull;
        case FetchFailed(serverError) =>
          error := Or(serverError, JsStr(LoadContactInfoFailed));
      }
    }

    /** The mark-read effect: reads the stored watermarks, overwrites this
        contact's entry in place and writes the object back. Reports whether
        it threw on an unparsable item, in which case nothing is written. */
    method MarkReadOnView(storage: LocalStorage) returns (threw: bool)
      modifies storage
      ensures storage.item == MarkedOnView(old(storage.item), contactInfo, |messages|, contactId)
      ensures threw <==> MarkOnViewThrows(old(storage.item), contactInfo, |messages|)
    {
      threw := false;
      if contactInfo.Some? && |messages| > 0 {
        var stored := storage.item;
        if stored.Unparsable? {
          threw := true;
        } else {
          var lastRead := if stored.Parsed? then stored.marks else map[];
          lastRead := lastRead[contactId := ViewedCount(contactInfo.value, |messages|)];
          storage.item := Parsed(lastRead);
        }
      }
    }

    /** The visual groups the render draws for the shown messages: together
        they are the shown list, and a header is drawn exactly where a
        group begins. */
    function Groups(): (gs: seq<seq<Message>>)
      reads this
      ensures Concat(gs) == messages
      ensures forall i :: 0 <= i < |messages| ==> (HeaderAt(messages, i, myNumber) != NoHeader <==> StartsGroup(gs, i))
    {
      DisplayGroupsStarts(messages, myNumber);
      DisplayGroups(messages, myNumber)
    }

    /** `handleSendMessage`, given the outcome of the send call and of the
        reload that follows a successful send. Returns the request it
        submitted (none for a blank input) and whether `onRefresh` ran. */
    method HandleSendMessage(sendOutcome: Fetch<JsValue>, reload: Fetch<MessagesData>)
      returns (request: Option<SendRequest>, refreshed: bool)
      modifies this
      ensures Trim(old(newMessage)) == "" ==> request.None? && !refreshed && unchanged(this)
      ensures Trim(old(newMessage)) != "" ==>
                request == Some(SendRequest(contactId, old(newMessage))) && !sending && contactInfo == old(contactInfo)
      ensures Trim(old(newMessage)) != "" && sendOutcome.Fetched? ==>
                && newMessage == ""
                && messages == (if reload.Fetched? then VisibleMessages(reload.data.messages.GetOr([])) else old(messages))
                && !loading
                && error == JsNull
                && refreshed == hasOnRefresh
      ensures Trim(old(newMessage)) != "" && sendOutcome.FetchFailed? ==>
                && newMessage == old(newMessage)
                && messages == old(messages)
                && loading == old(loading)
                && error == Or(sendOutcome.serverError, JsStr(SendFailed))
                && !refreshed
    {
      request, refreshed := None, false;
      if Trim(newMessage) == "" {
        return;
      }
      sending := true;
      request := Some(SendRequest(contactId, newMessage));
      match sendOutcome {
        case Fetched(_) =>
          newMessage := "";
          LoadMessages(reload);
          refreshed := hasOnRefresh;
          error := JsNull;
        case FetchFailed(serverError) =>
          error := Or(serverError, JsStr(SendFailed));
      }
      sending := false;
    }
  }
}
