/** Two ways to shorten a chat history without splitting an assistant's tool calls from their results: the
    budget window and the compaction range. */
module ContextWindow {
  import opened Bytes
  import opened Wrappers

  datatype Role = System | User | Assistant | Tool

  /** `toolCalls` holds the JSON text of each call. */
  datatype Message = Message(role: Role, content: string, toolCalls: seq<string>)

  /** A message with the tool results that belong to it. */
  datatype Unit = Unit(first: Message, results: seq<Message>)

  const KEEP_RECENT := 12
  const MIN_MESSAGES := 6

  predicate Calling(m: Message) {
    m.role.Assistant? && m.toolCalls != []
  }

  // ---------------------------------------------------------------- indivisible units

  /** Whether `m` is a tool result belonging to the last of `units`. */
  predicate Joins(m: Message, units: seq<Unit>) {
    m.role.Tool? && units != [] && Calling(units[|units| - 1].first)
  }

  function AddMessage(units: seq<Unit>, m: Message): (r: seq<Unit>)
    ensures |r| == |units| + if Joins(m, units) then 0 else 1
  {
    if Joins(m, units) then
      var last := |units| - 1;
      units[last := Unit(units[last].first, units[last].results + [m])]
    else units + [Unit(m, [])]
  }

  /** A calling assistant message with the tool results right behind it is one unit, any other message is one
      of its own. */
  function Units(messages: seq<Message>): seq<Unit> {
    if messages == [] then [] else AddMessage(Units(messages[..|messages| - 1]), messages[|messages| - 1])
  }

  function MessagesOf(unit: Unit): seq<Message> {
    [unit.first] + unit.results
  }

  /** All messages of `units` from the `k`-th on. */
  function Joined(units: seq<Unit>): seq<Message> {
    if units == [] then [] else Joined(units[..|units| - 1]) + MessagesOf(units[|units| - 1])
  }

  lemma UnitsSnoc(messages: seq<Message>, m: Message)
    ensures Units(messages + [m]) == AddMessage(Units(messages), m)
  {
    assert (messages + [m])[..|messages|] == messages;
  }

  lemma JoinedSnoc(units: seq<Unit>, last: Unit)
    ensures Joined(units + [last]) == Joined(units) + MessagesOf(last)
  {
    assert (units + [last])[..|units|] == units;
  }

  lemma JoinedAdd(units: seq<Unit>, m: Message)
    ensures Joined(AddMessage(units, m)) == Joined(units) + [m]
  {
    if Joins(m, units) {
      var front, last := units[..|units| - 1], units[|units| - 1];
      assert AddMessage(units, m) == front + [Unit(last.first, last.results + [m])];
      JoinedSnoc(front, Unit(last.first, last.results + [m]));
      assert MessagesOf(last) + [m] == MessagesOf(Unit(last.first, last.results + [m]));
    } else {
      JoinedSnoc(units, Unit(m, []));
    }
  }

  /** Grouping loses and reorders nothing. */
  lemma {:induction false} UnitsJoined(messages: seq<Message>)
    ensures Joined(Units(messages)) == messages
  {
    if messages != [] {
      var n := |messages| - 1;
      UnitsJoined(messages[..n]);
      JoinedAdd(Units(messages[..n]), messages[n]);
    }
  }

  lemma AddBehind(front: seq<Unit>, units: seq<Unit>, m: Message)
    requires units != []
    ensures AddMessage(front + units, m) == front + AddMessage(units, m)
  {
  }

  lemma SomeUnits(messages: seq<Message>)
    ensures Units(messages) == [] <==> messages == []
  {
  }

  /** A message that joins nothing before it starts a unit. */
  lemma {:induction false} UnitsAppend(p: seq<Message>, q: seq<Message>)
    requires q != [] ==> !Joins(q[0], Units(p))
    ensures Units(p + q) == Units(p) + Units(q)
    decreases |q|
  {
    if q == [] {
      assert p + q == p;
    } else if |q| == 1 {
      UnitsSnoc(p, q[0]);
      LoneUnit(q[0]);
      assert q == [q[0]];
    } else {
      var front, m := q[..|q| - 1], q[|q| - 1];
      UnitsAppend(p, front);
      SomeUnits(front);
      AddBehind(Units(p), Units(front), m);
      UnitsSnoc(p + front, m);
      assert p + q == (p + front) + [m];
    }
  }

  lemma LoneUnit(m: Message)
    ensures Units([m]) == [Unit(m, [])] && Chars([m]) == MessageChars(m)
  {
    UnitsSnoc([], m);
    CharsSnoc([], m);
    assert [] + [m] == [m];
  }

  /** `i` is a unit boundary. */
  ghost predicate CutAt(messages: seq<Message>, i: nat) {
    i <= |messages| && Units(messages) == Units(messages[..i]) + Units(messages[i..])
  }

  /** The first `i` messages make up the first `k` units, and the others the others. */
  ghost predicate Splits(messages: seq<Message>, k: nat, i: nat) {
    && k <= |Units(messages)| && i <= |messages|
    && Units(messages[..i]) == Units(messages)[..k]
    && Units(messages[i..]) == Units(messages)[k..]
  }

  lemma AddInTail(units: seq<Unit>, m: Message, k: nat)
    requires k <= |units| && k < |AddMessage(units, m)|
    ensures AddMessage(units, m)[..k] == units[..k]
    ensures AddMessage(units, m)[k..] == AddMessage(units[k..], m)
  {
  }

  lemma SplitsSnoc(front: seq<Message>, m: Message, k: nat, i: nat)
    requires Splits(front, k, i) && k < |AddMessage(Units(front), m)|
    ensures Splits(front + [m], k, i)
  {
    var all := front + [m];
    UnitsSnoc(front, m);
    AddInTail(Units(front), m, k);
    assert all[..i] == front[..i];
    assert all[i..] == front[i..] + [m];
    UnitsSnoc(front[i..], m);
  }

  lemma SplitsAtEnd(messages: seq<Message>)
    ensures Splits(messages, |Units(messages)|, |messages|)
  {
    var units := Units(messages);
    assert messages[..|messages|] == messages && messages[|messages|..] == [];
    assert units[..|units|] == units && units[|units|..] == [];
    SomeUnits([]);
  }

  /** Cutting the units is cutting the messages. */
  lemma {:induction false} UnitCut(messages: seq<Message>, k: nat)
    requires k <= |Units(messages)|
    ensures Splits(messages, k, |Joined(Units(messages)[..k])|)
  {
    var units := Units(messages);
    if k == |units| {
      UnitsJoined(messages);
      SplitsAtEnd(messages);
      assert units[..k] == units;
    } else {
      var front, m := messages[..|messages| - 1], messages[|messages| - 1];
      assert messages == front + [m];
      UnitsSnoc(front, m);
      UnitCut(front, k);
      AddInTail(Units(front), m, k);
      SplitsSnoc(front, m, k, |Joined(Units(front)[..k])|);
    }
  }

  /** Whether every tool result follows its call, message by message. */
  ghost predicate NoOrphans(messages: seq<Message>) {
    forall i | 0 <= i < |messages| && messages[i].role.Tool? :: Answers(messages, i)
  }

  ghost predicate Answers(messages: seq<Message>, i: nat)
    requires i < |messages|
  {
    exists j | 0 <= j < i :: Calling(messages[j]) && forall k | j < k < i :: messages[k].role.Tool?
  }

  /** Read off the messages: the last unit is open to results exactly when its call is followed by results only. */
  lemma {:induction false} OpenUnit(messages: seq<Message>, m: Message)
    requires m.role.Tool?
    ensures Joins(m, Units(messages)) <==> Answers(messages + [m], |messages|)
  {
    if messages != [] {
      var n := |messages| - 1;
      var front, last := messages[..n], messages[n];
      assert messages == front + [last];
      LastUnit(front, last, m);
      if last.role.Tool? {
        OpenUnit(front, last);
        AnswersShift(front, last, m);
      } else {
        AnswersBehind(front, last, m);
      }
    }
  }

  lemma LastUnit(front: seq<Message>, last: Message, m: Message)
    requires m.role.Tool?
    ensures Joins(m, Units(front + [last])) <==> if last.role.Tool? then Joins(last, Units(front)) else Calling(last)
  {
    UnitsSnoc(front, last);
  }

  lemma AnswersBehind(front: seq<Message>, last: Message, m: Message)
    requires !last.role.Tool?
    ensures Answers(front + [last] + [m], |front| + 1) <==> Calling(last)
  {
    var all := front + [last] + [m];
    assert all[|front|] == last;
  }

  lemma AnswersShift(messages: seq<Message>, tool: Message, m: Message)
    requires tool.role.Tool?
    ensures Answers(messages + [tool], |messages|) <==> Answers(messages + [tool] + [m], |messages| + 1)
  {
    var short, long := messages + [tool], messages + [tool] + [m];
    if Answers(short, |messages|) {
      var j :| 0 <= j < |messages| && Calling(short[j]) && forall k | j < k < |messages| :: short[k].role.Tool?;
      assert Calling(long[j]) && forall k | j < k < |messages| + 1 :: long[k] == short[k];
    }
    if Answers(long, |messages| + 1) {
      var j :| 0 <= j < |messages| + 1 && Calling(long[j]) && forall k | j < k < |messages| + 1 :: long[k].role.Tool?;
      assert j != |messages|;
      assert Calling(short[j]) && forall k | j < k < |messages| :: long[k] == short[k];
    }
  }

  ghost predicate NoToolFirst(units: seq<Unit>) {
    forall k | 0 <= k < |units| :: !units[k].first.role.Tool?
  }

  /** A history has no orphan result exactly when no unit starts with one. */
  lemma {:induction false} OrphansStartUnits(messages: seq<Message>)
    ensures NoOrphans(messages) <==> NoToolFirst(Units(messages))
  {
    if messages != [] {
      var n := |messages| - 1;
      var front, m := messages[..n], messages[n];
      OrphansStartUnits(front);
      assert messages == front + [m];
      NoOrphansSnoc(front, m);
      if m.role.Tool? {
        OpenUnit(front, m);
      }
      NoToolFirstAdd(Units(front), m);
    }
  }

  lemma NoOrphansSnoc(front: seq<Message>, m: Message)
    ensures NoOrphans(front + [m]) <==> NoOrphans(front) && (m.role.Tool? ==> Answers(front + [m], |front|))
  {
    var all := front + [m];
    AnswersPrefix(front, m);
    assert all[|front|] == m;
    if NoOrphans(all) {
      forall i | 0 <= i < |front| && front[i].role.Tool?
        ensures Answers(front, i)
      {
        assert all[i] == front[i];
      }
    }
    if NoOrphans(front) && (m.role.Tool? ==> Answers(all, |front|)) {
      forall i | 0 <= i < |all| && all[i].role.Tool?
        ensures Answers(all, i)
      {
        if i < |front| {
          assert Answers(front, i);
        }
      }
    }
  }

  lemma AnswersPrefix(front: seq<Message>, m: Message)
    ensures forall i | 0 <= i < |front| :: Answers(front + [m], i) <==> Answers(front, i)
  {
    var all := front + [m];
    forall i | 0 <= i < |front|
      ensures Answers(all, i) <==> Answers(front, i)
    {
      assert forall j | 0 <= j < i :: all[j] == front[j];
      if Answers(all, i) {
        var j :| 0 <= j < i && Calling(all[j]) && forall k | j < k < i :: all[k].role.Tool?;
        assert Calling(front[j]);
      }
      if Answers(front, i) {
        var j :| 0 <= j < i && Calling(front[j]) && forall k | j < k < i :: front[k].role.Tool?;
        assert Calling(all[j]);
      }
    }
  }

  lemma NoToolFirstAdd(units: seq<Unit>, m: Message)
    ensures NoToolFirst(AddMessage(units, m)) <==> NoToolFirst(units) && (m.role.Tool? ==> Joins(m, units))
  {
    var all := AddMessage(units, m);
    assert forall k | 0 <= k < |units| :: units[k].first == all[k].first;
    if !Joins(m, units) {
      assert all[|units|].first == m;
    }
  }

  // ---------------------------------------------------------------- sizes

  /** JSON.stringify of a list of calls, given the text of each. */
  function JoinCalls(calls: seq<string>): string {
    if calls == [] then "" else if |calls| == 1 then calls[0] else calls[0] + "," + JoinCalls(calls[1..])
  }

  function MessageChars(m: Message): nat {
    |m.content| + if m.toolCalls != [] then |"[" + JoinCalls(m.toolCalls) + "]"| else 0
  }

  function CallChars(calls: seq<string>): nat {
    if calls == [] then 0 else |calls[0]| + CallChars(calls[1..])
  }

  lemma {:induction false} JoinLength(calls: seq<string>)
    requires calls != []
    ensures |JoinCalls(calls)| == CallChars(calls) + |calls| - 1
  {
    if |calls| > 1 {
      JoinLength(calls[1..]);
    }
  }

  /** A message counts its content and, if it calls tools, the text of each call, a comma between any two and the two
      brackets. */
  lemma MessageCounts(m: Message)
    ensures MessageChars(m) == |m.content| + if m.toolCalls == [] then 0 else CallChars(m.toolCalls) + |m.toolCalls| + 1
  {
    if m.toolCalls != [] {
      JoinLength(m.toolCalls);
    }
  }

  function Chars(messages: seq<Message>): nat {
    if messages == [] then 0 else Chars(messages[..|messages| - 1]) + MessageChars(messages[|messages| - 1])
  }

  lemma CharsSnoc(messages: seq<Message>, m: Message)
    ensures Chars(messages + [m]) == Chars(messages) + MessageChars(m)
  {
    assert (messages + [m])[..|messages|] == messages;
  }

  lemma {:induction false} CharsAppend(a: seq<Message>, b: seq<Message>)
    ensures Chars(a + b) == Chars(a) + Chars(b)
    decreases |b|
  {
    if b == [] {
      assert a + b == a;
    } else {
      var front, last := b[..|b| - 1], b[|b| - 1];
      assert b == front + [last];
      Associative(a, front, [last]);
      CharsAppend(a, front);
      CharsSnoc(a + front, last);
      CharsSnoc(front, last);
    }
  }

  /** Sum over the units from `k` on. */
  function UnitChars(units: seq<Unit>, k: nat): nat
    decreases |units| - k
  {
    if k >= |units| then 0 else Chars(MessagesOf(units[k])) + UnitChars(units, k + 1)
  }

  lemma {:induction false} JoinedCons(first: Unit, units: seq<Unit>)
    ensures Joined([first] + units) == MessagesOf(first) + Joined(units)
    decreases |units|
  {
    if units == [] {
      assert [first] + units == [] + [first];
      JoinedSnoc([], first);
    } else {
      var front, last := units[..|units| - 1], units[|units| - 1];
      JoinedCons(first, front);
      assert [first] + units == ([first] + front) + [last];
      JoinedSnoc([first] + front, last);
      Associative(MessagesOf(first), Joined(front), MessagesOf(last));
    }
  }

  lemma {:induction false} UnitCharsTail(units: seq<Unit>, k: nat)
    requires k <= |units|
    ensures UnitChars(units, k) == Chars(Joined(units[k..]))
    decreases |units| - k
  {
    if k < |units| {
      UnitCharsTail(units, k + 1);
      JoinedCons(units[k], units[k + 1..]);
      assert [units[k]] + units[k + 1..] == units[k..];
      CharsAppend(MessagesOf(units[k]), Joined(units[k + 1..]));
    }
  }

  /** The window and the compaction trigger count alike: the units add up to the estimate of the whole. */
  lemma UnitsAddUp(messages: seq<Message>)
    ensures UnitChars(Units(messages), 0) == Chars(messages)
  {
    UnitsJoined(messages);
    UnitCharsTail(Units(messages), 0);
    assert Units(messages)[0..] == Units(messages);
  }

  method EstimateChars(messages: seq<Message>) returns (total: nat)
    ensures total == Chars(messages)
  {
    total := 0;
    for i := 0 to |messages|
      invariant total == Chars(messages[..i])
    {
      CharsSnoc(messages[..i], messages[i]);
      assert messages[..i + 1] == messages[..i] + [messages[i]];
      total := total + MessageChars(messages[i]);
    }
    assert messages[..|messages|] == messages;
  }

  // ---------------------------------------------------------------- budget window

  function Decimal(n: nat): string {
    var digit := ['0', '1', '2', '3', '4', '5', '6', '7', '8', '9'][n % 10];
    if n < 10 then [digit] else Decimal(n / 10) + [digit]
  }

  /** The note that stands in for what was left out. */
  function Note(omitted: nat): Message {
    Message(User, "[上下文注记:为控制长度,已省略本会话较早的 " + Decimal(omitted)
            + " 条消息。如需回顾,可用 session_search 工具搜索历史会话存档。]", [])
  }

  /** The number that a text of digits stands for. */
  function ReadDecimal(text: string): nat {
    if text == "" then 0
    else
      var c := text[|text| - 1];
      ReadDecimal(text[..|text| - 1]) * 10 + if '0' <= c <= '9' then c as nat - '0' as nat else 0
  }

  lemma {:induction false} DecimalReads(n: nat)
    ensures ReadDecimal(Decimal(n)) == n
  {
    if n >= 10 {
      DecimalReads(n / 10);
      assert Decimal(n)[..|Decimal(n)| - 1] == Decimal(n / 10);
    }
  }

  datatype Budgeted = Budgeted(messages: seq<Message>, omittedCount: nat, omittedMessages: seq<Message>)

  predicate OfUser(unit: Unit) {
    unit.first.role.User?
  }

  /** The last unit of a user, or the very last unit when there is none. */
  ghost predicate CurrentTurn(units: seq<Unit>, turn: nat) {
    && turn < |units|
    && (forall k | turn < k < |units| :: !OfUser(units[k]))
    && (OfUser(units[turn]) || (turn == |units| - 1 && forall k | 0 <= k < |units| :: !OfUser(units[k])))
  }

  /** `from` is where the longest run of last units begins that fits in `maxChars`, or the current turn if not
      even that fits. */
  ghost predicate LongestWindow(units: seq<Unit>, turn: nat, from: nat, maxChars: int) {
    && from <= turn < |units|
    && (from == turn || UnitChars(units, from) <= maxChars)
    && forall k | 0 <= k < from :: UnitChars(units, k) > maxChars
  }

  function WithNote(omitted: nat, kept: seq<Message>): seq<Message> {
    if omitted > 0 then [Note(omitted)] + kept else kept
  }

  /** How many messages the units before `from` hold. */
  ghost function Omitted(messages: seq<Message>, from: nat): (n: nat)
    requires from <= |Units(messages)|
    ensures n <= |messages|
  {
    UnitCut(messages, from);
    |Joined(Units(messages)[..from])|
  }

  /** What is sent when the units from `from` on are kept. */
  ghost function Window(messages: seq<Message>, from: nat): Budgeted
    requires from <= |Units(messages)|
  {
    var omitted := Omitted(messages, from);
    Budgeted(WithNote(omitted, messages[omitted..]), omitted, messages[..omitted])
  }

  datatype Sized = Sized(messages: seq<Message>, chars: nat)

  function Size(unit: Unit): Sized {
    Sized(MessagesOf(unit), Chars(MessagesOf(unit)))
  }

  /** `sized` are `units` with their sizes. */
  ghost predicate Measures(sized: seq<Sized>, units: seq<Unit>) {
    |sized| == |units| && forall k | 0 <= k < |units| :: sized[k] == Size(units[k])
  }

  lemma MeasuresSnoc(sized: seq<Sized>, units: seq<Unit>, unit: Unit)
    requires Measures(sized, units)
    ensures Measures(sized + [Size(unit)], units + [unit])
  {
  }

  lemma Next(messages: seq<Message>, i: nat)
    requires i < |messages|
    ensures Units(messages[..i + 1]) == AddMessage(Units(messages[..i]), messages[i])
  {
    assert messages[..i + 1] == messages[..i] + [messages[i]];
    UnitsSnoc(messages[..i], messages[i]);
  }

  /** The tool results right behind the call at `cursor`. */
  method Group(messages: seq<Message>, cursor: nat) returns (group: seq<Message>, next: nat)
    requires cursor < |messages| && Calling(messages[cursor])
    ensures cursor < next <= |messages| && group != [] && group[0] == messages[cursor]
    ensures Units(messages[..next]) == Units(messages[..cursor]) + [Unit(group[0], group[1..])]
    ensures next < |messages| ==> !messages[next].role.Tool?
  {
    ghost var before := Units(messages[..cursor]);
    group, next := [messages[cursor]], cursor + 1;
    Next(messages, cursor);
    assert group[1..] == [];
    while next < |messages| && messages[next].role.Tool?
      invariant cursor < next <= |messages| && group != [] && group[0] == messages[cursor]
      invariant Units(messages[..next]) == before + [Unit(group[0], group[1..])]
    {
      Next(messages, next);
      assert (group + [messages[next]])[1..] == group[1..] + [messages[next]];
      group := group + [messages[next]];
      next := next + 1;
    }
  }

  method GroupUnits(messages: seq<Message>) returns (units: seq<Sized>)
    ensures Measures(units, Units(messages))
  {
    units := [];
    var cursor := 0;
    while cursor < |messages|
      invariant 0 <= cursor <= |messages|
      invariant Measures(units, Units(messages[..cursor]))
      invariant cursor < |messages| ==> !Joins(messages[cursor], Units(messages[..cursor]))
    {
      var message := messages[cursor];
      if Calling(message) {
        var group, next := Group(messages, cursor);
        var chars := EstimateChars(group);
        MeasuresSnoc(units, Units(messages[..cursor]), Unit(group[0], group[1..]));
        assert [group[0]] + group[1..] == group;
        units := units + [Sized(group, chars)];
        cursor := next;
      } else {
        Next(messages, cursor);
        LoneUnit(message);
        MeasuresSnoc(units, Units(messages[..cursor]), Unit(message, []));
        assert [message] + [] == [message];
        units := units + [Sized([message], MessageChars(message))];
        cursor := cursor + 1;
      }
    }
    assert messages[..cursor] == messages;
  }

  method MandatoryStart(units: seq<Sized>, ghost all: seq<Unit>) returns (mandatoryStart: nat)
    requires Measures(units, all) && all != []
    ensures CurrentTurn(all, mandatoryStart)
  {
    mandatoryStart := |units| - 1;
    var index := |units| - 1;
    while index >= 0
      invariant -1 <= index < |units| && mandatoryStart == |units| - 1
      invariant forall k | index < k < |units| :: !OfUser(all[k])
    {
      if units[index].messages[0].role.User? {
        return index;
      }
      index := index - 1;
    }
  }

  lemma OneMore(units: seq<Sized>, all: seq<Unit>, i: nat, kept: seq<Sized>, used: nat)
    requires Measures(units, all) && i < |units| && kept == units[i + 1..] && used == UnitChars(all, i + 1)
    ensures [units[i]] + kept == units[i..]
    ensures used + units[i].chars == UnitChars(all, i)
  {
  }

  /** The window that starts right behind `index`, where one unit more would not fit. */
  lemma StopsAt(units: seq<Sized>, all: seq<Unit>, index: nat, turn: nat, used: nat, maxChars: int)
    requires Measures(units, all) && index < turn < |units|
    requires used == UnitChars(all, index + 1) && used + units[index].chars > maxChars
    requires index + 1 == turn || used <= maxChars
    ensures LongestWindow(all, turn, index + 1, maxChars)
  {
    ShorterTails(all, index, maxChars);
  }

  /** The loop over the current turn. */
  method KeepTurn(units: seq<Sized>, ghost all: seq<Unit>, mandatoryStart: nat) returns (kept: seq<Sized>, used: nat)
    requires Measures(units, all) && mandatoryStart < |units|
    ensures kept == units[mandatoryStart..] && used == UnitChars(all, mandatoryStart)
  {
    kept, used := [], 0;
    var index := |units| - 1;
    while index >= mandatoryStart
      invariant mandatoryStart - 1 <= index < |units|
      invariant kept == units[index + 1..] && used == UnitChars(all, index + 1)
    {
      OneMore(units, all, index, kept, used);
      kept := [units[index]] + kept;
      used := used + units[index].chars;
      index := index - 1;
    }
  }

  method KeepUnits(units: seq<Sized>, ghost all: seq<Unit>, mandatoryStart: nat, maxChars: int)
    returns (kept: seq<Sized>, ghost from: nat)
    requires Measures(units, all) && mandatoryStart < |units|
    ensures LongestWindow(all, mandatoryStart, from, maxChars) && kept == units[from..]
  {
    var used;
    kept, used := KeepTurn(units, all, mandatoryStart);
    from := mandatoryStart;
    var index := mandatoryStart - 1;
    while index >= 0
      invariant -1 <= index < mandatoryStart && from == index + 1
      invariant kept == units[from..] && used == UnitChars(all, from)
      invariant from == mandatoryStart || used <= maxChars
    {
      var unit := units[index];
      if used + unit.chars > maxChars {
        StopsAt(units, all, index, mandatoryStart, used, maxChars);
        break;
      }
      OneMore(units, all, index, kept, used);
      kept := [unit] + kept;
      used := used + unit.chars;
      from := index;
      index := index - 1;
    }
  }

  method BuildBudgetedMessages(messages: seq<Message>, maxChars: int) returns (r: Budgeted)
    ensures messages == [] ==> r == Budgeted([], 0, [])
    ensures messages != [] ==>
      exists turn, from :: CurrentTurn(Units(messages), turn) && LongestWindow(Units(messages), turn, from, maxChars)
                        && r == Window(messages, from)
  {
    if |messages| == 0 {
      return Budgeted([], 0, []);
    }
    var units := GroupUnits(messages);
    ghost var all := Units(messages);
    SomeUnits(messages);
    var mandatoryStart := MandatoryStart(units, all);
    var kept, from := KeepUnits(units, all, mandatoryStart, maxChars);
    var result := FlatMap(kept, all[from..]);
    CutLengths(messages, from);
    var omitted := |messages| - |result|;
    if omitted > 0 {
      result := [Note(omitted)] + result;
    }
    r := Budgeted(result, omitted, messages[..omitted]);
  }

  method FlatMap(kept: seq<Sized>, ghost units: seq<Unit>) returns (result: seq<Message>)
    requires Measures(kept, units)
    ensures result == Joined(units)
  {
    result := [];
    for k := 0 to |kept|
      invariant result == Joined(units[..k])
    {
      JoinedSnoc(units[..k], units[k]);
      assert units[..k + 1] == units[..k] + [units[k]];
      result := result + kept[k].messages;
    }
    assert units[..|kept|] == units;
  }

  lemma {:induction false} ShorterTails(units: seq<Unit>, k: nat, maxChars: int)
    requires UnitChars(units, k) > maxChars
    ensures forall j | 0 <= j <= k :: UnitChars(units, j) > maxChars
  {
    if k > 0 {
      ShorterTails(units, k - 1, maxChars);
    }
  }

  lemma CutLengths(messages: seq<Message>, from: nat)
    requires from <= |Units(messages)|
    ensures Joined(Units(messages)[from..]) == messages[Omitted(messages, from)..]
  {
    UnitCut(messages, from);
    UnitsJoined(messages[Omitted(messages, from)..]);
  }

  /** What is kept and what is left out make up the history, and the units sent are exactly the kept ones behind
      the note, so whatever holds of each unit of the history and of the note holds of each unit sent. */
  lemma WindowKeepsUnits(messages: seq<Message>, from: nat)
    requires from <= |Units(messages)|
    ensures var w := Window(messages, from);
            && w.omittedCount == |w.omittedMessages| <= |messages|
            && w.omittedMessages + messages[w.omittedCount..] == messages
            && Units(w.omittedMessages) == Units(messages)[..from]
            && w.messages == WithNote(w.omittedCount, messages[w.omittedCount..])
    ensures var w := Window(messages, from);
            Units(w.messages) == (if from > 0 then [Unit(Note(w.omittedCount), [])] else []) + Units(messages)[from..]
  {
    UnitCut(messages, from);
    OmittedCount(messages, from);
    SentUnits(messages, from, Omitted(messages, from));
  }

  lemma SentUnits(messages: seq<Message>, from: nat, n: nat)
    requires Splits(messages, from, n) && (n > 0 <==> from > 0)
    ensures messages[..n] + messages[n..] == messages
    ensures Units(WithNote(n, messages[n..]))
            == (if from > 0 then [Unit(Note(n), [])] else []) + Units(messages)[from..]
  {
    UnitsWithNote(n, messages[n..]);
  }

  lemma UnitsWithNote(omitted: nat, kept: seq<Message>)
    ensures Units(WithNote(omitted, kept)) == (if omitted > 0 then [Unit(Note(omitted), [])] else []) + Units(kept)
  {
    if omitted > 0 {
      LoneUnit(Note(omitted));
      UnitsAppend([Note(omitted)], kept);
    }
  }

  lemma OmittedCount(messages: seq<Message>, from: nat)
    requires from <= |Units(messages)|
    ensures Omitted(messages, from) > 0 <==> from > 0
  {
    UnitCut(messages, from);
    SomeUnits(messages[..Omitted(messages, from)]);
  }

  /** The note is not counted: what is sent is the kept units' size plus the note's, so it can exceed the budget. */
  lemma WindowSize(messages: seq<Message>, from: nat)
    requires from <= |Units(messages)|
    ensures var w := Window(messages, from);
            Chars(w.messages) == UnitChars(Units(messages), from)
                              + if from > 0 then MessageChars(Note(w.omittedCount)) else 0
  {
    var w := Window(messages, from);
    CutLengths(messages, from);
    UnitCharsTail(Units(messages), from);
    WindowKeepsUnits(messages, from);
    if from > 0 {
      var note := Note(w.omittedCount);
      LoneUnit(note);
      CharsAppend([note], messages[w.omittedCount..]);
    }
  }

  /** Exactly when what is sent fits: when the whole history does, or the kept units leave room for the note. While
      the current turn fits, the note is all the excess there can be. */
  lemma WindowFitsIff(messages: seq<Message>, maxChars: int, turn: nat, from: nat)
    requires CurrentTurn(Units(messages), turn) && LongestWindow(Units(messages), turn, from, maxChars)
    ensures var w := Window(messages, from);
            Chars(w.messages) <= maxChars
            <==> Chars(messages) <= maxChars
                 || (from > 0 && UnitChars(Units(messages), from) + MessageChars(Note(w.omittedCount)) <= maxChars)
    ensures var w := Window(messages, from);
            UnitChars(Units(messages), turn) <= maxChars ==>
              Chars(w.messages) <= maxChars + MessageChars(Note(w.omittedCount))
  {
    WindowSize(messages, from);
    UnitsAddUp(messages);
  }

  lemma TwoUnits(m: Message, n: Message)
    requires !n.role.Tool?
    ensures Units([m, n]) == [Unit(m, []), Unit(n, [])]
    ensures UnitChars(Units([m, n]), 1) == MessageChars(n)
    ensures UnitChars(Units([m, n]), 0) == MessageChars(m) + MessageChars(n)
  {
    LoneUnit(m);
    UnitsSnoc([m], n);
    assert [m] + [n] == [m, n];
    CharsSnoc([], m);
    CharsSnoc([], n);
    assert [] + [m] == [m] == MessagesOf(Unit(m, [])) && [] + [n] == [n] == MessagesOf(Unit(n, []));
  }

  /** Two questions of one character and a budget of one: the last fits, what is sent does not. */
  lemma NoteExceedsBudget()
    ensures var messages := [Message(User, "a", []), Message(User, "b", [])];
            && CurrentTurn(Units(messages), 1) && LongestWindow(Units(messages), 1, 1, 1)
            && UnitChars(Units(messages), 1) == 1 && Chars(Window(messages, 1).messages) > 1
  {
    var m, n := Message(User, "a", []), Message(User, "b", []);
    TwoUnits(m, n);
    WindowSize([m, n], 1);
    assert Units([m, n])[1] == Unit(n, []) && OfUser(Unit(n, []));
  }

  // ---------------------------------------------------------------- compaction range

  datatype Range = Range(start: nat, end: nat)

  /** Start of the run of tool results that ends before `i`, looking no further back than `start`. */
  function RunStart(messages: seq<Message>, start: nat, i: nat): (t: nat)
    requires start <= i <= |messages|
    ensures start <= t <= i
    decreases i
  {
    if i > start && messages[i - 1].role.Tool? then RunStart(messages, start, i - 1) else i
  }

  /** Where a cut wanted at `e` goes. */
  function CutFor(messages: seq<Message>, start: nat, e: nat): (end: nat)
    requires start <= e < |messages|
    ensures start <= end <= e
  {
    if messages[e].role.Tool? then
      var t := RunStart(messages, start, e);
      if t > start && Calling(messages[t - 1]) then t - 1 else t
    else e
  }

  ghost predicate LeadingSystem(messages: seq<Message>, start: nat) {
    && start <= |messages|
    && (forall k | 0 <= k < start :: messages[k].role.System?)
    && (start < |messages| ==> !messages[start].role.System?)
  }

  ghost predicate Picks(messages: seq<Message>, start: nat, range: Option<Range>) {
    && LeadingSystem(messages, start)
    && if |messages| - KEEP_RECENT <= start then range == None
       else var end := CutFor(messages, start, |messages| - KEEP_RECENT);
            range == if end - start < MIN_MESSAGES then None else Some(Range(start, end))
  }

  method PickCompactionRange(messages: seq<Message>) returns (range: Option<Range>)
    ensures exists start :: Picks(messages, start, range)
  {
    var start := 0;
    while start < |messages| && messages[start].role.System?
      invariant 0 <= start <= |messages|
      invariant forall k | 0 <= k < start :: messages[k].role.System?
    {
      start := start + 1;
    }
    assert LeadingSystem(messages, start);

    var end := |messages| - KEEP_RECENT;
    if end <= start {
      assert Picks(messages, start, None);
      return None;
    }
    ghost var e := end;
    if end < |messages| && messages[end].role.Tool? {
      while end > start && messages[end - 1].role.Tool?
        invariant start <= end <= e && RunStart(messages, start, end) == RunStart(messages, start, e)
      {
        end := end - 1;
      }
      if end > start && Calling(messages[end - 1]) {
        end := end - 1;
      }
    }
    assert end == CutFor(messages, start, e);
    range := if end - start < MIN_MESSAGES then None else Some(Range(start, end));
    assert Picks(messages, start, range);
  }

  /** A position whose message is no tool result is a boundary. */
  lemma CutBeforeOther(messages: seq<Message>, i: nat)
    requires i < |messages| && !messages[i].role.Tool?
    ensures CutAt(messages, i)
  {
    assert messages == messages[..i] + messages[i..];
    UnitsAppend(messages[..i], messages[i..]);
  }

  /** A position behind a message that neither calls nor answers is a boundary. */
  lemma CutBehindOther(messages: seq<Message>, i: nat)
    requires 0 < i <= |messages| && !messages[i - 1].role.Tool? && !Calling(messages[i - 1])
    ensures CutAt(messages, i)
  {
    assert messages == messages[..i] + messages[i..];
    assert messages[..i] == messages[..i - 1] + [messages[i - 1]];
    UnitsSnoc(messages[..i - 1], messages[i - 1]);
    UnitsAppend(messages[..i], messages[i..]);
  }

  lemma {:induction false} RunIsTools(messages: seq<Message>, start: nat, i: nat)
    requires start <= i <= |messages|
    ensures var t := RunStart(messages, start, i);
            && (forall k | t <= k < i :: messages[k].role.Tool?)
            && (t > start ==> !messages[t - 1].role.Tool?)
    decreases i
  {
    if i > start && messages[i - 1].role.Tool? {
      RunIsTools(messages, start, i - 1);
    }
  }

  /** For every history, well-formed or not, the picked range starts and ends at unit boundaries of the window's
      grouping, holds at least six messages, and leaves the leading system messages and at least twelve recent
      messages outside. */
  lemma RangeCutsBetweenUnits(messages: seq<Message>, start: nat, range: Option<Range>)
    requires Picks(messages, start, range) && range.Some?
    ensures var r := range.value;
            && r.start + MIN_MESSAGES <= r.end <= |messages| - KEEP_RECENT
            && (forall k | 0 <= k < r.start :: messages[k].role.System?)
            && CutAt(messages, r.start) && CutAt(messages, r.end)
  {
    var r := range.value;
    var e := |messages| - KEEP_RECENT;
    RunIsTools(messages, start, e);
    if start == 0 {
      assert messages[..0] == [] && messages[0..] == messages;
      SomeUnits([]);
    } else {
      CutBehindOther(messages, start);
    }
    if messages[r.end].role.Tool? {
      assert r.end == RunStart(messages, start, e);
      CutBehindOther(messages, r.end);
    } else {
      CutBeforeOther(messages, r.end);
    }
  }

  /** On a history without orphan results nothing more could have been compacted: no boundary lies between the
      end of the range and the twelfth last message. */
  lemma RangeIsLongest(messages: seq<Message>, start: nat, i: nat)
    requires LeadingSystem(messages, start) && start < |messages| - KEEP_RECENT && NoOrphans(messages)
    requires CutFor(messages, start, |messages| - KEEP_RECENT) < i <= |messages| - KEEP_RECENT
    ensures !CutAt(messages, i)
  {
    var e := |messages| - KEEP_RECENT;
    RunIsTools(messages, start, e);
    assert messages[i].role.Tool?;
    var p, q := messages[..i], messages[i..];
    assert messages == p + q && q[0] == messages[i];
    if CutAt(messages, i) {
      FirstOfFirst(q);
      assert Units(messages)[|Units(p)|] == Units(q)[0];
      OrphansStartUnits(messages);
      assert false;
    }
  }

  lemma {:induction false} FirstOfFirst(messages: seq<Message>)
    requires messages != []
    ensures Units(messages) != [] && Units(messages)[0].first == messages[0]
  {
    var n := |messages| - 1;
    if n > 0 {
      FirstOfFirst(messages[..n]);
    } else {
      LoneUnit(messages[0]);
      assert messages == [messages[0]];
    }
  }

  /** Replacing the range by one summary message, itself neither call nor result, keeps every unit outside it,
      in order, and adds the summary as a unit of its own. */
  lemma CompactionKeepsUnits(messages: seq<Message>, start: nat, range: Option<Range>, summary: Message)
    requires Picks(messages, start, range) && range.Some?
    requires !summary.role.Tool? && !Calling(summary)
    ensures var r := range.value; var compacted := messages[..r.start] + [summary] + messages[r.end..];
            && Units(compacted) == Units(messages[..r.start]) + [Unit(summary, [])] + Units(messages[r.end..])
            && Units(messages)
            == Units(messages[..r.start]) + Units(messages[r.start..r.end]) + Units(messages[r.end..])
            && |compacted| + MIN_MESSAGES <= |messages| + 1
  {
    var r := range.value;
    RangeCutsBetweenUnits(messages, start, range);
    StartJoinsNothing(messages, start);
    CutRange(messages, r.start, r.end);
    SummaryBetween(messages[..r.start], messages[r.start..r.end], messages[r.end..], summary);
  }

  lemma CutRange(messages: seq<Message>, i: nat, j: nat)
    requires i < j <= |messages| && CutAt(messages, j)
    ensures messages == messages[..i] + messages[i..j] + messages[j..]
    ensures messages[i..j] != [] && messages[i..j][0] == messages[i]
    ensures Units(messages) == Units(messages[..i] + messages[i..j]) + Units(messages[j..])
  {
    assert messages[..j] == messages[..i] + messages[i..j];
  }

  lemma SummaryBetween(front: seq<Message>, range: seq<Message>, back: seq<Message>, summary: Message)
    requires !summary.role.Tool? && !Calling(summary) && range != [] && !Joins(range[0], Units(front))
    requires Units(front + range + back) == Units(front + range) + Units(back)
    ensures Units(front + [summary] + back) == Units(front) + [Unit(summary, [])] + Units(back)
    ensures Units(front + range + back) == Units(front) + Units(range) + Units(back)
  {
    UnitsSnoc(front, summary);
    UnitsAppend(front + [summary], back);
    UnitsAppend(front, range);
  }

  lemma StartJoinsNothing(messages: seq<Message>, start: nat)
    requires LeadingSystem(messages, start) && start < |messages|
    ensures !Joins(messages[start], Units(messages[..start]))
  {
    if start > 0 {
      assert messages[..start] == messages[..start - 1] + [messages[start - 1]];
      UnitsSnoc(messages[..start - 1], messages[start - 1]);
    }
  }

  /** Hence both shortenings keep a history without orphan results free of them. */
  lemma WindowKeepsNoOrphans(messages: seq<Message>, from: nat)
    requires NoOrphans(messages) && from <= |Units(messages)|
    ensures NoOrphans(Window(messages, from).messages)
  {
    var w := Window(messages, from);
    OrphansStartUnits(messages);
    WindowKeepsUnits(messages, from);
    NoToolFirstTail(Unit(Note(w.omittedCount), []), Units(messages), from);
    OrphansStartUnits(w.messages);
  }

  lemma NoToolFirstTail(first: Unit, units: seq<Unit>, from: nat)
    requires NoToolFirst(units) && from <= |units| && !first.first.role.Tool?
    ensures NoToolFirst([first] + units[from..]) && NoToolFirst([] + units[from..])
  {
  }

  lemma CompactionKeepsNoOrphans(messages: seq<Message>, start: nat, range: Option<Range>, summary: Message)
    requires NoOrphans(messages) && Picks(messages, start, range) && range.Some?
    requires !summary.role.Tool? && !Calling(summary)
    ensures NoOrphans(messages[..range.value.start] + [summary] + messages[range.value.end..])
  {
    var r := range.value;
    OrphansStartUnits(messages);
    CompactionKeepsUnits(messages, start, range, summary);
    NoToolFirstSwap(Units(messages[..r.start]), Units(messages[r.start..r.end]), [Unit(summary, [])],
                    Units(messages[r.end..]));
    OrphansStartUnits(messages[..r.start] + [summary] + messages[r.end..]);
  }

  lemma NoToolFirstSwap(front: seq<Unit>, gone: seq<Unit>, come: seq<Unit>, back: seq<Unit>)
    requires NoToolFirst(front + gone + back) && NoToolFirst(come)
    ensures NoToolFirst(front + come + back)
  {
    NoToolFirstParts(front + gone, back);
    NoToolFirstParts(front, gone);
    NoToolFirstParts(front, come);
    NoToolFirstParts(front + come, back);
  }

  lemma NoToolFirstParts(a: seq<Unit>, b: seq<Unit>)
    ensures NoToolFirst(a + b) <==> NoToolFirst(a) && NoToolFirst(b)
  {
    assert forall k | 0 <= k < |a| :: (a + b)[k] == a[k];
    assert forall k | 0 <= k < |b| :: (a + b)[|a| + k] == b[k];
  }
}
