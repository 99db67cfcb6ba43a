/** What the view of Projection shows, read off the events alone: which event each field of each block comes from. */
module ProjectionHistory {
  import opened Bytes
  import opened Wrappers
  import opened Projection

  // ---------------------------------------------------------------- what events say about a slot

  /** The content that a message lists for slot `k`. */
  function Listed(e: Event, k: Key): Option<Content> {
    if e.AssistantMessage? && e.turn == k.turn && e.step == k.step && 0 <= k.index < |e.content|
       && !e.content[k.index].Other?
    then Some(e.content[k.index]) else None
  }

  predicate ListsText(e: Event, k: Key) {
    Listed(e, k).Some? && Listed(e, k).value.Text?
  }

  predicate ListsReasoning(e: Event, k: Key) {
    Listed(e, k).Some? && Listed(e, k).value.Reasoning?
  }

  function TextDeltaOf(e: Event, k: Key): string {
    if e.TextDelta? && e.key == k then e.text else ""
  }

  function ReasoningDeltaOf(e: Event, k: Key): string {
    if e.ReasoningDelta? && e.key == k then e.text else ""
  }

  predicate Opens(e: Event, k: Key) {
    (e.TextDelta? && e.key == k) || (e.ReasoningDelta? && e.key == k) || Listed(e, k).Some?
  }

  /** The slot's stream is over. */
  predicate Stops(e: Event, k: Key) {
    e.TurnEnd? || e.HostNotice? || Listed(e, k).Some? || (e.Finish? && e.turn == k.turn && e.step == k.step)
  }

  predicate Opened(events: seq<Event>, k: Key) {
    exists i :: 0 <= i < |events| && Opens(events[i], k)
  }

  /** The text of the last message that lists the slot as text, and all later text deltas. */
  function TextOf(events: seq<Event>, k: Key): string {
    if events == [] then ""
    else
      var before, e := events[..|events| - 1], events[|events| - 1];
      if ListsText(e, k) then Listed(e, k).value.text else TextOf(before, k) + TextDeltaOf(e, k)
  }

  function ReasoningOf(events: seq<Event>, k: Key): string {
    if events == [] then ""
    else
      var before, e := events[..|events| - 1], events[|events| - 1];
      if ListsReasoning(e, k) then Listed(e, k).value.text else ReasoningOf(before, k) + ReasoningDeltaOf(e, k)
  }

  /** Opened, and not stopped by that event or since. */
  predicate StreamingIn(events: seq<Event>, k: Key) {
    Opened(events, k)
    && forall i, j | 0 <= i <= j < |events| && Opens(events[i], k) :: !Stops(events[j], k)
  }

  /** All text deltas for the slot from position `from` on. */
  function TextDeltas(events: seq<Event>, k: Key, from: nat): string
    decreases |events|
  {
    if |events| <= from then ""
    else TextDeltas(events[..|events| - 1], k, from) + TextDeltaOf(events[|events| - 1], k)
  }

  /** In other words. */
  lemma {:induction false} TextIsListedAndDeltas(events: seq<Event>, k: Key, from: nat)
    requires from <= |events|
    requires forall i | from <= i < |events| :: !ListsText(events[i], k)
    ensures TextOf(events, k) == TextOf(events[..from], k) + TextDeltas(events, k, from)
    ensures from > 0 && ListsText(events[from - 1], k) ==>
              TextOf(events, k) == Listed(events[from - 1], k).value.text + TextDeltas(events, k, from)
  {
    if |events| == from {
      assert events[..from] == events;
      assert TextOf(events, k) + "" == TextOf(events, k);
    } else {
      var n := |events| - 1;
      TextIsListedAndDeltas(events[..n], k, from);
      assert events[..n][..from] == events[..from];
      Associative(TextOf(events[..from], k), TextDeltas(events[..n], k, from), TextDeltaOf(events[n], k));
    }
  }

  // ---------------------------------------------------------------- slots

  function SlotView(v: View, k: Key): Option<Block> {
    if k in v.slots then Some(SlotOf(v, k)) else None
  }

  function Was(s: Option<Block>): (b: Block)
    requires s.Some? ==> s.value.Assistant?
    ensures b.Assistant?
  {
    if s.Some? then s.value else Assistant("", "", true)
  }

  function Quieted(s: Option<Block>, stop: bool): Option<Block> {
    if s.Some? && stop then Some(Stopped(s.value)) else s
  }

  /** The slot behind an event. */
  function SlotNext(s: Option<Block>, e: Event, k: Key): Option<Block>
    requires s.Some? ==> s.value.Assistant?
  {
    if !Opens(e, k) then Quieted(s, Stops(e, k))
    else
      Some(Assistant(if ListsText(e, k) then Listed(e, k).value.text else Was(s).text + TextDeltaOf(e, k),
                     if ListsReasoning(e, k) then Listed(e, k).value.text
                     else Was(s).reasoning + ReasoningDeltaOf(e, k),
                     Was(s).streaming && !Stops(e, k)))
  }

  /** Nothing happened to assistant blocks and their aliases. */
  ghost predicate SlotsSame(v: View, w: View) {
    && w.slots == v.slots && |v.blocks| <= |w.blocks|
    && forall i | 0 <= i < |v.blocks| && v.blocks[i].Assistant? :: w.blocks[i] == v.blocks[i]
  }

  lemma SameSlot(v: View, w: View, k: Key)
    requires Consistent(v) && SlotsSame(v, w)
    ensures SlotView(w, k) == SlotView(v, k)
  {
  }

  lemma SetView(v: View, j: Key, b: Block, k: Key)
    requires Consistent(v) && b.Assistant?
    ensures j in OpenSlot(v, j).slots
    ensures SlotView(SetSlot(OpenSlot(v, j), j, b), k) == if j == k then Some(b) else SlotView(v, k)
  {
    OpenSlotKeeps(v, j);
    if j != k {
      OpenView(v, j, k);
    }
    WrittenView(OpenSlot(v, j), j, b, k);
  }

  lemma OpenView(v: View, j: Key, k: Key)
    requires SlotsMatch(v) && j != k
    ensures SlotView(OpenSlot(v, j), k) == SlotView(v, k)
  {
  }

  lemma WrittenView(v: View, j: Key, b: Block, k: Key)
    requires SlotsMatch(v) && j in v.slots && b.Assistant?
    ensures SlotView(SetSlot(v, j, b), k) == if j == k then Some(b) else SlotView(v, k)
  {
  }

  lemma DeltaSlot(v: View, j: Key, text: string, reasoning: string, k: Key)
    requires Consistent(v)
    ensures SlotView(AddDelta(v, j, text, reasoning), k)
         == if j != k then SlotView(v, k)
            else Some(Assistant(Was(SlotView(v, k)).text + text, Was(SlotView(v, k)).reasoning + reasoning,
                                Was(SlotView(v, k)).streaming))
  {
    var was := SlotOf(OpenSlot(v, j), j);
    SetView(v, j, Assistant(was.text + text, was.reasoning + reasoning, was.streaming), k);
  }

  lemma StoppedSlot(v: View, w: View, k: Key, stop: bool)
    requires Consistent(v) && w.slots == v.slots && |w.blocks| >= |v.blocks|
    requires k in v.slots ==>
               w.blocks[v.slots[k]] == if stop then Stopped(v.blocks[v.slots[k]]) else v.blocks[v.slots[k]]
    ensures SlotView(w, k) == Quieted(SlotView(v, k), stop)
  {
  }

  lemma FinishSlot(v: View, turn: int, step: int, k: Key)
    requires Consistent(v)
    ensures SlotView(StopStep(v, turn, step), k) == Quieted(SlotView(v, k), k.turn == turn && k.step == step)
  {
    if k in v.slots {
      var positions := StepSlots(v, turn, step);
      if v.slots[k] in positions {
        var l :| l in v.slots && l.turn == turn && l.step == step && v.slots[l] == v.slots[k];
        assert l == k;
      }
      StoppedSlot(v, StopStep(v, turn, step), k, k.turn == turn && k.step == step);
    }
  }

  lemma {:induction false} UnlistedSlot(v: View, turn: int, step: int, content: seq<Content>, k: Key)
    requires Consistent(v)
    requires k.turn == turn && k.step == step && 0 <= k.index < |content| ==> content[k.index].Other?
    ensures SlotView(SettleAll(v, turn, step, content), k) == SlotView(v, k)
  {
    if content != [] {
      var n := |content| - 1;
      UnlistedSlot(v, turn, step, content[..n], k);
      SettleAllKeeps(v, turn, step, content[..n]);
      OtherSettled(SettleAll(v, turn, step, content[..n]), Key(turn, step, n), content[n], k);
    }
  }

  lemma OtherSettled(v: View, j: Key, content: Content, k: Key)
    requires Consistent(v) && (j != k || content.Other?)
    ensures SlotView(Settle(v, j, content), k) == SlotView(v, k)
  {
    var was := SlotOf(OpenSlot(v, j), j);
    match content
    case Text(text) => SetView(v, j, Assistant(text, was.reasoning, false), k);
    case Reasoning(text) => SetView(v, j, Assistant(was.text, text, false), k);
    case Other =>
  }

  lemma SettledView(v: View, turn: int, step: int, content: seq<Content>, k: Key)
    requires Consistent(v) && k.turn == turn && k.step == step && 0 <= k.index < |content| && !content[k.index].Other?
    ensures SlotView(SettleAll(v, turn, step, content), k)
         == Some(if content[k.index].Text? then Assistant(content[k.index].text, Was(SlotView(v, k)).reasoning, false)
                 else Assistant(Was(SlotView(v, k)).text, content[k.index].text, false))
  {
    assert Key(turn, step, k.index) == k;
    SettledSlot(v, turn, step, content, k.index);
    ListedSlot(v, k, content[k.index]);
  }

  lemma MessageSlot(v: View, turn: int, step: int, usage: Option<Usage>, content: seq<Content>, k: Key)
    requires Consistent(v)
    ensures var e := AssistantMessage(turn, step, usage, content);
            SlotView(Apply(v, e), k) == SlotNext(SlotView(v, k), e, k)
  {
    var u := if usage.Some? then v.(usage := usage) else v;
    UnchangedKeeps(v, u);
    SameSlot(v, u, k);
    var e := AssistantMessage(turn, step, usage, content);
    if Listed(e, k).Some? {
      SettledView(u, turn, step, content, k);
      ListedNext(SlotView(v, k), e, k);
    } else {
      UnlistedSlot(u, turn, step, content, k);
    }
  }

  lemma ListedNext(s: Option<Block>, e: Event, k: Key)
    requires (s.Some? ==> s.value.Assistant?) && Listed(e, k).Some?
    ensures SlotNext(s, e, k)
         == Some(if ListsText(e, k) then Assistant(Listed(e, k).value.text, Was(s).reasoning, false)
                 else Assistant(Was(s).text, Listed(e, k).value.text, false))
  {
    assert Was(s).text + "" == Was(s).text && Was(s).reasoning + "" == Was(s).reasoning;
  }

  lemma ListedSlot(v: View, k: Key, content: Content)
    requires Consistent(v)
    ensures SlotOf(OpenSlot(v, k), k) == Was(SlotView(v, k))
  {
  }

  lemma EndSlot(v: View, e: Event, k: Key)
    requires Consistent(v) && (e.TurnEnd? || e.HostNotice?)
    ensures SlotView(Apply(v, e), k) == Quieted(SlotView(v, k), true)
  {
    StoppedSlot(v, StopAll(v), k, true);
    StoppedSlot(v, Apply(v, e), k, true);
  }

  /** Events that concern no slot. */
  predicate NoSlotEvent(e: Event) {
    e.UserMessage? || e.UsageChunk? || e.ToolCall? || e.ToolResult? || e.TodoWrite? || e.SubagentStarted?
    || e.SubagentFinished? || e.Ignored?
  }

  lemma ToolSlotsStay(v: View, e: Event)
    requires Consistent(v) && (e.ToolCall? || e.ToolResult?)
    ensures SlotsSame(v, Apply(v, e))
  {
  }

  lemma SlotsStay(v: View, e: Event)
    requires Consistent(v) && NoSlotEvent(e)
    ensures SlotsSame(v, Apply(v, e))
  {
    if e.ToolCall? || e.ToolResult? {
      ToolSlotsStay(v, e);
    } else {
      OtherSlotsStay(v, e);
    }
  }

  lemma OtherSlotsStay(v: View, e: Event)
    requires Consistent(v) && NoSlotEvent(e) && !e.ToolCall? && !e.ToolResult?
    ensures SlotsSame(v, Apply(v, e))
  {
  }

  lemma DeltaStep(v: View, e: Event, k: Key)
    requires Consistent(v) && (e.TextDelta? || e.ReasoningDelta?)
    ensures SlotView(Apply(v, e), k) == SlotNext(SlotView(v, k), e, k)
  {
    var was := Was(SlotView(v, k));
    assert was.text + "" == was.text && was.reasoning + "" == was.reasoning;
    DeltaSlot(v, e.key, if e.TextDelta? then e.text else "", if e.TextDelta? then "" else e.text, k);
  }

  lemma StayStep(v: View, e: Event, k: Key)
    requires Consistent(v) && NoSlotEvent(e)
    ensures SlotView(Apply(v, e), k) == SlotNext(SlotView(v, k), e, k)
  {
    SlotsStay(v, e);
    SameSlot(v, Apply(v, e), k);
  }

  lemma SlotStep(v: View, e: Event, k: Key)
    requires Consistent(v)
    ensures SlotView(Apply(v, e), k) == SlotNext(SlotView(v, k), e, k)
  {
    if e.TextDelta? || e.ReasoningDelta? {
      DeltaStep(v, e, k);
    } else if e.Finish? {
      FinishSlot(v, e.turn, e.step, k);
    } else if e.AssistantMessage? {
      MessageSlot(v, e.turn, e.step, e.usage, e.content, k);
    } else if e.TurnEnd? || e.HostNotice? {
      EndSlot(v, e, k);
    } else {
      StayStep(v, e, k);
    }
  }

  lemma OpenedSnoc(events: seq<Event>, e: Event, k: Key)
    ensures Opened(events + [e], k) <==> Opened(events, k) || Opens(e, k)
  {
    var all := events + [e];
    assert all[|events|] == e && forall i | 0 <= i < |events| :: all[i] == events[i];
  }

  lemma StreamingSnoc(events: seq<Event>, e: Event, k: Key)
    ensures StreamingIn(events + [e], k)
       <==> (StreamingIn(events, k) || (!Opened(events, k) && Opens(e, k))) && !Stops(e, k)
  {
    var all := events + [e];
    OpenedSnoc(events, e, k);
    assert all[|events|] == e && forall i | 0 <= i < |events| :: all[i] == events[i];
    if StreamingIn(all, k) && !Opened(events, k) {
      assert Opens(all[|events|], k);
    }
  }

  /** The slot as the events have it. */
  function HistorySlot(events: seq<Event>, k: Key): Option<Block> {
    if Opened(events, k) then Some(Assistant(TextOf(events, k), ReasoningOf(events, k), StreamingIn(events, k)))
    else None
  }

  lemma {:induction false} Unopened(events: seq<Event>, k: Key)
    requires !Opened(events, k)
    ensures TextOf(events, k) == "" && ReasoningOf(events, k) == "" && !StreamingIn(events, k)
  {
    if events != [] {
      var n := |events| - 1;
      assert !Opens(events[n], k);
      assert forall i | 0 <= i < n :: events[..n][i] == events[i];
      Unopened(events[..n], k);
    }
  }

  lemma HistoryNext(events: seq<Event>, e: Event, k: Key)
    ensures HistorySlot(events + [e], k) == SlotNext(HistorySlot(events, k), e, k)
  {
    var all := events + [e];
    assert all[..|events|] == events;
    OpenedSnoc(events, e, k);
    StreamingSnoc(events, e, k);
    if !Opened(events, k) {
      Unopened(events, k);
    }
    if !Opens(e, k) {
      assert TextOf(events, k) + "" == TextOf(events, k) && ReasoningOf(events, k) + "" == ReasoningOf(events, k);
    }
  }

  /** Over every event sequence a slot is there exactly if some event opened it; it then shows the last listed text and
      the later deltas, likewise its reasoning, and streams exactly if nothing has stopped it since it was opened. */
  lemma {:induction false} SlotHistory(events: seq<Event>, k: Key)
    ensures SlotView(Project(events), k) == HistorySlot(events, k)
  {
    if events != [] {
      var before, e := events[..|events| - 1], events[|events| - 1];
      SlotHistory(before, k);
      ProjectionConsistent(before);
      SlotStep(Project(before), e, k);
      HistoryNext(before, e, k);
      assert events == before + [e];
    }
  }

  // ---------------------------------------------------------------- tools

  function ToolView(v: View, c: string): Option<Block> {
    if c in v.tools then Some(ToolOf(v, c)) else None
  }

  predicate Concerns(e: Event, c: string) {
    (e.ToolCall? || e.ToolResult?) && e.callId == c && c != ""
  }

  predicate Known(events: seq<Event>, c: string) {
    exists i :: 0 <= i < |events| && Concerns(events[i], c)
  }

  /** The last name a call event gave, if any gave one. */
  function NameOf(events: seq<Event>, c: string): string {
    if events == [] then ""
    else
      var e := events[|events| - 1];
      if e.ToolCall? && e.callId == c && e.name != "" then e.name else NameOf(events[..|events| - 1], c)
  }

  function ArgumentsOf(events: seq<Event>, c: string): string {
    if events == [] then ""
    else
      var e := events[|events| - 1];
      if e.ToolCall? && e.callId == c && e.arguments != "" then e.arguments else ArgumentsOf(events[..|events| - 1], c)
  }

  /** The last result, with whether it is an error. */
  function ResultOf(events: seq<Event>, c: string): Option<(string, bool)> {
    if events == [] then None
    else
      var e := events[|events| - 1];
      if e.ToolResult? && e.callId == c then Some((e.result, e.isError)) else ResultOf(events[..|events| - 1], c)
  }

  function HistoryTool(events: seq<Event>, c: string): Option<Block> {
    if !Known(events, c) then None
    else
      var r := ResultOf(events, c);
      Some(Tool(c, NameOf(events, c), ArgumentsOf(events, c), if r.Some? then r.value.0 else "",
                r.Some? && r.value.1, r.Some?))
  }

  function ToolNext(t: Option<Block>, e: Event, c: string): Option<Block>
    requires t.Some? ==> t.value.Tool?
  {
    var was := if t.Some? then t.value else NewTool(c, "", "");
    if !Concerns(e, c) then t
    else if e.ToolCall? then
      Some(was.(name := OrElse(e.name, was.name), arguments := OrElse(e.arguments, was.arguments)))
    else Some(was.(result := e.result, isError := e.isError, done := true))
  }

  ghost predicate ToolsSame(v: View, w: View) {
    && w.tools == v.tools && |v.blocks| <= |w.blocks|
    && forall i | 0 <= i < |v.blocks| && v.blocks[i].Tool? :: w.blocks[i] == v.blocks[i]
  }

  lemma SameTool(v: View, w: View, c: string)
    requires Consistent(v) && ToolsSame(v, w)
    ensures ToolView(w, c) == ToolView(v, c)
  {
  }

  lemma CallTool(v: View, d: string, name: string, arguments: string, c: string)
    requires Consistent(v)
    ensures ToolView(OnToolCall(v, d, name, arguments), c) == ToolNext(ToolView(v, c), ToolCall(d, name, arguments), c)
  {
  }

  lemma ResultTool(v: View, d: string, result: string, isError: bool, c: string)
    requires Consistent(v)
    ensures ToolView(OnToolResult(v, d, result, isError), c)
         == ToolNext(ToolView(v, c), ToolResult(d, result, isError), c)
  {
    if d != "" {
      var o := OpenTool(v, d, "", "");
      OpenToolKeeps(v, d, "", "");
      OpenToolView(v, d, c);
      WrittenTool(o, d, Answered(ToolOf(o, d), result, isError), c);
    }
  }

  lemma OpenToolView(v: View, d: string, c: string)
    requires ToolsMatch(v) && d != ""
    ensures ToolView(OpenTool(v, d, "", ""), c)
         == if c == d && c !in v.tools then Some(NewTool(c, "", "")) else ToolView(v, c)
  {
  }

  lemma WrittenTool(v: View, d: string, b: Block, c: string)
    requires ToolsMatch(v) && d in v.tools && b.Tool?
    ensures ToolView(Update(v, v.tools[d], b), c) == if c == d then Some(b) else ToolView(v, c)
  {
  }

  /** Settling a message leaves everything but assistant blocks alone. */
  ghost predicate OthersSame(v: View, w: View) {
    && w.tools == v.tools && w.todo == v.todo && |v.blocks| <= |w.blocks|
    && (forall i | 0 <= i < |v.blocks| && !v.blocks[i].Assistant? :: w.blocks[i] == v.blocks[i])
    && (forall i | 0 <= i < |v.blocks| && v.blocks[i].Assistant? :: w.blocks[i].Assistant?)
    && (forall i | |v.blocks| <= i < |w.blocks| :: w.blocks[i].Assistant?)
  }

  lemma OthersTwice(u: View, v: View, w: View)
    requires OthersSame(u, v) && OthersSame(v, w)
    ensures OthersSame(u, w)
  {
  }

  lemma OthersOpen(v: View, k: Key)
    ensures OthersSame(v, OpenSlot(v, k))
  {
  }

  lemma OthersSet(v: View, k: Key, b: Block)
    requires Consistent(v) && b.Assistant?
    ensures k in OpenSlot(v, k).slots && OthersSame(v, SetSlot(OpenSlot(v, k), k, b))
  {
    OpenSlotKeeps(v, k);
    OthersOpen(v, k);
    var o := OpenSlot(v, k);
    assert OthersSame(o, SetSlot(o, k, b));
    OthersTwice(v, o, SetSlot(o, k, b));
  }

  lemma OthersSettled(v: View, k: Key, content: Content)
    requires Consistent(v)
    ensures OthersSame(v, Settle(v, k, content))
  {
    var was := SlotOf(OpenSlot(v, k), k);
    match content
    case Text(text) => OthersSet(v, k, Assistant(text, was.reasoning, false));
    case Reasoning(text) => OthersSet(v, k, Assistant(was.text, text, false));
    case Other =>
  }

  lemma {:induction false} OthersSettledAll(v: View, turn: int, step: int, content: seq<Content>)
    requires Consistent(v)
    ensures OthersSame(v, SettleAll(v, turn, step, content))
  {
    if content != [] {
      var n := |content| - 1;
      var u := SettleAll(v, turn, step, content[..n]);
      OthersSettledAll(v, turn, step, content[..n]);
      SettleAllKeeps(v, turn, step, content[..n]);
      OthersSettled(u, Key(turn, step, n), content[n]);
      OthersTwice(v, u, Settle(u, Key(turn, step, n), content[n]));
    }
  }

  lemma OthersMessage(v: View, e: Event)
    requires Consistent(v) && e.AssistantMessage?
    ensures OthersSame(v, Apply(v, e))
  {
    var u := if e.usage.Some? then v.(usage := e.usage) else v;
    UnchangedKeeps(v, u);
    OthersSettledAll(u, e.turn, e.step, e.content);
  }

  lemma OthersDelta(v: View, e: Event)
    requires Consistent(v) && (e.TextDelta? || e.ReasoningDelta?)
    ensures OthersSame(v, Apply(v, e))
  {
    var was := SlotOf(OpenSlot(v, e.key), e.key);
    if e.TextDelta? {
      OthersSet(v, e.key, Assistant(was.text + e.text, was.reasoning + "", was.streaming));
    } else {
      OthersSet(v, e.key, Assistant(was.text + "", was.reasoning + e.text, was.streaming));
    }
  }

  /** Events for assistant slots only. */
  predicate SlotEvent(e: Event) {
    e.TextDelta? || e.ReasoningDelta? || e.AssistantMessage? || e.Finish? || e.UsageChunk? || e.Ignored?
  }

  lemma OthersStay(v: View, e: Event)
    requires Consistent(v) && SlotEvent(e)
    ensures OthersSame(v, Apply(v, e))
  {
    if e.AssistantMessage? {
      OthersMessage(v, e);
    } else if e.TextDelta? || e.ReasoningDelta? {
      OthersDelta(v, e);
    }
  }

  /** Other events that concern no tool. */
  lemma ToolsStay(v: View, e: Event)
    requires Consistent(v) && !SlotEvent(e) && !e.ToolCall? && !e.ToolResult?
    ensures ToolsSame(v, Apply(v, e))
  {
  }

  lemma ToolStep(v: View, e: Event, c: string)
    requires Consistent(v)
    ensures ToolView(Apply(v, e), c) == ToolNext(ToolView(v, c), e, c)
  {
    if e.ToolCall? {
      CallTool(v, e.callId, e.name, e.arguments, c);
    } else if e.ToolResult? {
      ResultTool(v, e.callId, e.result, e.isError, c);
    } else {
      if SlotEvent(e) {
        OthersStay(v, e);
      } else {
        ToolsStay(v, e);
      }
      SameTool(v, Apply(v, e), c);
    }
  }

  lemma KnownSnoc(events: seq<Event>, e: Event, c: string)
    ensures Known(events + [e], c) <==> Known(events, c) || Concerns(e, c)
  {
    var all := events + [e];
    assert all[|events|] == e && forall i | 0 <= i < |events| :: all[i] == events[i];
  }

  lemma {:induction false} Unknown(events: seq<Event>, c: string)
    requires !Known(events, c) && c != ""
    ensures NameOf(events, c) == "" && ArgumentsOf(events, c) == "" && ResultOf(events, c) == None
  {
    if events != [] {
      var n := |events| - 1;
      assert !Concerns(events[n], c);
      assert forall i | 0 <= i < n :: events[..n][i] == events[i];
      Unknown(events[..n], c);
    }
  }

  lemma HistoryToolNext(events: seq<Event>, e: Event, c: string)
    ensures HistoryTool(events + [e], c) == ToolNext(HistoryTool(events, c), e, c)
  {
    assert (events + [e])[..|events|] == events;
    KnownSnoc(events, e, c);
    if !Known(events, c) && c != "" {
      Unknown(events, c);
    }
  }

  /** Over every event sequence a tool is there exactly if a call or result named it; it shows the last name and
      arguments a call gave and the last result, and is done exactly if there was one. */
  lemma {:induction false} ToolHistory(events: seq<Event>, c: string)
    ensures ToolView(Project(events), c) == HistoryTool(events, c)
  {
    if events != [] {
      var before, e := events[..|events| - 1], events[|events| - 1];
      ToolHistory(before, c);
      ProjectionConsistent(before);
      ToolStep(Project(before), e, c);
      HistoryToolNext(before, e, c);
      assert events == before + [e];
    }
  }

  // ---------------------------------------------------------------- the todo list and the usage

  function TodoView(v: View): Option<Block> {
    if v.todo.Some? && v.todo.value < |v.blocks| then Some(v.blocks[v.todo.value]) else None
  }

  function LastTodo(events: seq<Event>): Option<Block> {
    if events == [] then None
    else
      var e := events[|events| - 1];
      if e.TodoWrite? then Some(Todo(e.todos)) else LastTodo(events[..|events| - 1])
  }

  function LastUsage(events: seq<Event>): Option<Usage> {
    if events == [] then None
    else
      var e := events[|events| - 1];
      if e.UsageChunk? then Some(e.tokens)
      else if e.AssistantMessage? && e.usage.Some? then e.usage
      else LastUsage(events[..|events| - 1])
  }

  lemma TodoStays(v: View, e: Event)
    requires Consistent(v) && !SlotEvent(e) && !e.TodoWrite?
    ensures TodoView(Apply(v, e)) == TodoView(v)
  {
  }

  lemma TodoStep(v: View, e: Event)
    requires Consistent(v)
    ensures TodoView(Apply(v, e)) == if e.TodoWrite? then Some(Todo(e.todos)) else TodoView(v)
  {
    if SlotEvent(e) {
      OthersStay(v, e);
    } else if !e.TodoWrite? {
      TodoStays(v, e);
    }
  }

  lemma {:induction false} SettledUsage(v: View, turn: int, step: int, content: seq<Content>)
    ensures SettleAll(v, turn, step, content).usage == v.usage
  {
    if content != [] {
      SettledUsage(v, turn, step, content[..|content| - 1]);
    }
  }

  lemma UsageStep(v: View, e: Event)
    ensures Apply(v, e).usage == if e.UsageChunk? then Some(e.tokens)
                                 else if e.AssistantMessage? && e.usage.Some? then e.usage else v.usage
  {
    if e.AssistantMessage? {
      SettledUsage(if e.usage.Some? then v.(usage := e.usage) else v, e.turn, e.step, e.content);
    }
  }

  /** The one todo block shows the last list written, and the usage is the last one reported. */
  lemma {:induction false} TodoAndUsageHistory(events: seq<Event>)
    ensures TodoView(Project(events)) == LastTodo(events)
    ensures Project(events).usage == LastUsage(events)
  {
    if events != [] {
      var before, e := events[..|events| - 1], events[|events| - 1];
      TodoAndUsageHistory(before);
      ProjectionConsistent(before);
      TodoStep(Project(before), e);
      UsageStep(Project(before), e);
    }
  }

  // ---------------------------------------------------------------- blocks that never change, and cards

  predicate IsPlain(b: Block) {
    b.User? || b.Notice? || b.Failure?
  }

  function Plain(blocks: seq<Block>): seq<Block> {
    if blocks == [] then []
    else Plain(blocks[..|blocks| - 1]) + if IsPlain(blocks[|blocks| - 1]) then [blocks[|blocks| - 1]] else []
  }

  function Cards(blocks: seq<Block>): seq<Block> {
    if blocks == [] then []
    else Cards(blocks[..|blocks| - 1]) + if blocks[|blocks| - 1].Subagent? then [blocks[|blocks| - 1]] else []
  }

  /** The block an event appends for good. */
  function Says(e: Event): Option<Block> {
    match e
    case UserMessage(fromUser, text) => if fromUser && text != "" then Some(User(text)) else None
    case TurnEnd(ErrorEnd(message, code)) =>
      Some(Failure(if message != "" then message else "unknown error", if code != "" then code else "UNKNOWN"))
    case TurnEnd(NoticeEnd(notice)) => Some(Notice(notice))
    case HostNotice(notice) => Some(Notice(notice))
    case _ => None
  }

  function Said(events: seq<Event>): seq<Block> {
    if events == [] then []
    else
      var said := Says(events[|events| - 1]);
      Said(events[..|events| - 1]) + if said.Some? then [said.value] else []
  }

  /** Closes the first card of the child, if there is one. */
  function Close(cards: seq<Block>, childId: string, ok: bool, summary: string): seq<Block> {
    var i := FindSubagent(cards, childId);
    if i < |cards| then cards[i := Subagent(childId, false, ok, summary)] else cards
  }

  /** A card for each start, closed by a finish. */
  function CardsOf(events: seq<Event>): seq<Block> {
    if events == [] then []
    else
      var cards, e := CardsOf(events[..|events| - 1]), events[|events| - 1];
      if e.SubagentStarted? && e.childId != "" then cards + [Subagent(e.childId, true, false, "")]
      else if e.SubagentFinished? && e.childId != "" then Close(cards, e.childId, e.ok, e.summary)
      else cards
  }

  /** `b` is `a` as far as the blocks of one sort go. */
  ghost predicate SameSort(a: seq<Block>, b: seq<Block>, sort: Block -> bool) {
    && |a| <= |b|
    && (forall i | 0 <= i < |a| && (sort(a[i]) || sort(b[i])) :: a[i] == b[i])
    && (forall i | |a| <= i < |b| :: !sort(b[i]))
  }

  lemma {:induction false} PlainSame(a: seq<Block>, b: seq<Block>)
    requires SameSort(a, b, IsPlain)
    ensures Plain(a) == Plain(b)
    decreases |b|
  {
    if |b| > |a| {
      PlainSame(a, b[..|b| - 1]);
    } else if b != [] {
      PlainSame(a[..|a| - 1], b[..|b| - 1]);
      assert IsPlain(a[|a| - 1]) || IsPlain(b[|b| - 1]) ==> a[|a| - 1] == b[|b| - 1];
    }
  }

  predicate IsCard(b: Block) {
    b.Subagent?
  }

  lemma {:induction false} CardsSame(a: seq<Block>, b: seq<Block>)
    requires SameSort(a, b, IsCard)
    ensures Cards(a) == Cards(b)
    decreases |b|
  {
    if |b| > |a| {
      CardsSame(a, b[..|b| - 1]);
    } else if b != [] {
      CardsSame(a[..|a| - 1], b[..|b| - 1]);
      assert IsCard(a[|a| - 1]) || IsCard(b[|b| - 1]) ==> a[|a| - 1] == b[|b| - 1];
    }
  }

  lemma SortSnoc(blocks: seq<Block>, b: Block)
    ensures Plain(blocks + [b]) == Plain(blocks) + if IsPlain(b) then [b] else []
    ensures Cards(blocks + [b]) == Cards(blocks) + if b.Subagent? then [b] else []
  {
    assert (blocks + [b])[..|blocks|] == blocks;
  }

  lemma OthersSorts(v: View, w: View)
    requires OthersSame(v, w)
    ensures SameSort(v.blocks, w.blocks, IsPlain) && SameSort(v.blocks, w.blocks, IsCard)
  {
  }

  lemma StopSorts(v: View)
    ensures SameSort(v.blocks, StopAll(v).blocks, IsPlain) && SameSort(v.blocks, StopAll(v).blocks, IsCard)
  {
  }

  lemma UpdateSorts(v: View, e: Event)
    requires Consistent(v) && (e.ToolCall? || e.ToolResult? || e.TodoWrite?)
    ensures SameSort(v.blocks, Apply(v, e).blocks, IsPlain) && SameSort(v.blocks, Apply(v, e).blocks, IsCard)
  {
    NeitherSort(v, e);
    SortsOfNeither(v.blocks, Apply(v, e).blocks, IsPlain);
    SortsOfNeither(v.blocks, Apply(v, e).blocks, IsCard);
  }

  predicate IsWork(b: Block) {
    b.Tool? || b.Todo?
  }

  /** Only tool and todo blocks change or come. */
  ghost predicate WorkOnly(a: seq<Block>, b: seq<Block>) {
    && |a| <= |b|
    && (forall i | 0 <= i < |a| :: a[i] == b[i] || (IsWork(a[i]) && IsWork(b[i])))
    && (forall i | |a| <= i < |b| :: IsWork(b[i]))
  }

  lemma NeitherSort(v: View, e: Event)
    requires Consistent(v) && (e.ToolCall? || e.ToolResult? || e.TodoWrite?)
    ensures WorkOnly(v.blocks, Apply(v, e).blocks)
  {
    if e.ToolResult? {
      ResultIsWork(v, e.callId, e.result, e.isError);
    }
  }

  lemma ResultIsWork(v: View, d: string, result: string, isError: bool)
    requires Consistent(v)
    ensures WorkOnly(v.blocks, OnToolResult(v, d, result, isError).blocks)
  {
  }

  lemma SortsOfNeither(a: seq<Block>, b: seq<Block>, sort: Block -> bool)
    requires WorkOnly(a, b) && forall x | IsWork(x) :: !sort(x)
    ensures SameSort(a, b, sort)
  {
  }

  lemma FinishedSorts(v: View, childId: string, ok: bool, summary: string)
    ensures SameSort(v.blocks, OnSubagentFinished(v, childId, ok, summary).blocks, IsPlain)
  {
  }

  /** Events that stop slots and may append a block for good. */
  lemma EndBlocks(v: View, e: Event)
    requires e.TurnEnd? || e.HostNotice?
    ensures Plain(Apply(v, e).blocks) == Plain(v.blocks) + if Says(e).Some? then [Says(e).value] else []
    ensures Cards(Apply(v, e).blocks) == Cards(v.blocks)
  {
    StopSorts(v);
    PlainSame(v.blocks, StopAll(v).blocks);
    CardsSame(v.blocks, StopAll(v).blocks);
    EndSays(v, e);
    if Says(e).Some? {
      SortSnoc(StopAll(v).blocks, Says(e).value);
    }
  }

  lemma EndSays(v: View, e: Event)
    requires e.TurnEnd? || e.HostNotice?
    ensures Apply(v, e).blocks == StopAll(v).blocks + if Says(e).Some? then [Says(e).value] else []
    ensures Says(e).Some? ==> IsPlain(Says(e).value) && !Says(e).value.Subagent?
  {
  }

  lemma PlainStep(v: View, e: Event)
    requires Consistent(v)
    ensures Plain(Apply(v, e).blocks) == Plain(v.blocks) + if Says(e).Some? then [Says(e).value] else []
  {
    if SlotEvent(e) {
      OthersStay(v, e);
      OthersSorts(v, Apply(v, e));
      PlainSame(v.blocks, Apply(v, e).blocks);
    } else if e.ToolCall? || e.ToolResult? || e.TodoWrite? {
      UpdateSorts(v, e);
      PlainSame(v.blocks, Apply(v, e).blocks);
    } else if e.TurnEnd? || e.HostNotice? {
      EndBlocks(v, e);
    } else if e.UserMessage? {
      SortSnoc(v.blocks, User(e.text));
    } else if e.SubagentStarted? {
      SortSnoc(v.blocks, Subagent(e.childId, true, false, ""));
    } else {
      FinishedSorts(v, e.childId, e.ok, e.summary);
      PlainSame(v.blocks, Apply(v, e).blocks);
    }
  }

  lemma {:induction false} CardsUpdate(blocks: seq<Block>, i: nat, b: Block)
    requires i < |blocks| && blocks[i].Subagent? && b.Subagent?
    ensures |Cards(blocks[..i])| < |Cards(blocks)| && Cards(blocks)[|Cards(blocks[..i])|] == blocks[i]
    ensures Cards(blocks[i := b]) == Cards(blocks)[|Cards(blocks[..i])| := b]
  {
    var front, last := blocks[..|blocks| - 1], blocks[|blocks| - 1];
    if i == |front| {
      assert blocks[i := b] == front + [b] && blocks[..i] == front;
      SortSnoc(front, b);
    } else {
      CardsUpdate(front, i, b);
      assert front[..i] == blocks[..i];
      assert blocks[i := b] == front[i := b] + [last];
      SortSnoc(front[i := b], last);
    }
  }

  lemma {:induction false} NoCardOf(blocks: seq<Block>, childId: string)
    requires forall j | 0 <= j < |blocks| :: !(blocks[j].Subagent? && blocks[j].childId == childId)
    ensures forall m | 0 <= m < |Cards(blocks)| :: Cards(blocks)[m].Subagent? && Cards(blocks)[m].childId != childId
  {
    if blocks != [] {
      NoCardOf(blocks[..|blocks| - 1], childId);
    }
  }

  lemma {:induction false} CardsBegin(blocks: seq<Block>, i: nat)
    requires i <= |blocks|
    ensures Cards(blocks[..i]) <= Cards(blocks)
  {
    if i < |blocks| {
      CardsBegin(blocks[..|blocks| - 1], i);
      assert blocks[..|blocks| - 1][..i] == blocks[..i];
    } else {
      assert blocks[..i] == blocks;
    }
  }

  lemma CardsClosed(v: View, childId: string, ok: bool, summary: string)
    requires childId != ""
    ensures Cards(OnSubagentFinished(v, childId, ok, summary).blocks) == Close(Cards(v.blocks), childId, ok, summary)
  {
    var i := FindSubagent(v.blocks, childId);
    var cards := Cards(v.blocks);
    if i < |v.blocks| {
      CardsUpdate(v.blocks, i, Subagent(childId, false, ok, summary));
      NoCardOf(v.blocks[..i], childId);
      CardsBegin(v.blocks, i);
      FirstSubagent(cards, childId, |Cards(v.blocks[..i])|);
    } else {
      NoCardOf(v.blocks, childId);
      FirstSubagent(cards, childId, |cards|);
    }
  }

  /** What an event does to the cards. */
  lemma CardsStep(v: View, e: Event)
    requires Consistent(v)
    ensures Cards(Apply(v, e).blocks)
         == if e.SubagentStarted? && e.childId != "" then Cards(v.blocks) + [Subagent(e.childId, true, false, "")]
            else if e.SubagentFinished? && e.childId != "" then Close(Cards(v.blocks), e.childId, e.ok, e.summary)
            else Cards(v.blocks)
  {
    if SlotEvent(e) {
      OthersStay(v, e);
      OthersSorts(v, Apply(v, e));
      CardsSame(v.blocks, Apply(v, e).blocks);
    } else if e.ToolCall? || e.ToolResult? || e.TodoWrite? {
      UpdateSorts(v, e);
      CardsSame(v.blocks, Apply(v, e).blocks);
    } else if e.TurnEnd? || e.HostNotice? {
      EndBlocks(v, e);
    } else if e.UserMessage? {
      SortSnoc(v.blocks, User(e.text));
    } else if e.SubagentStarted? {
      SortSnoc(v.blocks, Subagent(e.childId, true, false, ""));
    } else if e.childId != "" {
      CardsClosed(v, e.childId, e.ok, e.summary);
    }
  }

  /** Over every event sequence the messages, notices and errors shown are those of the events, in order; and the cards
      are those of the children started, in order, each finish having closed the first card of its child. */
  lemma {:induction false} PlainAndCardsHistory(events: seq<Event>)
    ensures Plain(Project(events).blocks) == Said(events)
    ensures Cards(Project(events).blocks) == CardsOf(events)
  {
    if events != [] {
      var before, e := events[..|events| - 1], events[|events| - 1];
      PlainAndCardsHistory(before);
      ProjectionConsistent(before);
      PlainStep(Project(before), e);
      CardsStep(Project(before), e);
    }
  }
}
