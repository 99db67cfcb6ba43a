/** The event-sourced projection of a session: events update a list of blocks, which two maps and a
    reference alias. */
module Projection {
  import opened Wrappers

  /** `turn:step:blockIndex`. */
  datatype Key = Key(turn: int, step: int, index: int)

  datatype Usage = Usage(input: int, output: int)

  datatype NoticeKind = Aborted | Interrupted | MaxTokens | SessionReset

  datatype TodoStatus = Pending | InProgress | Completed

  datatype TodoItem = TodoItem(content: string, status: TodoStatus)

  datatype Block =
    | User(text: string)
    | Assistant(text: string, reasoning: string, streaming: bool)
    | Tool(callId: string, name: string, arguments: string, result: string, isError: bool, done: bool)
    | Todo(todos: seq<TodoItem>)
    | Notice(notice: NoticeKind)
    | Subagent(childId: string, running: bool, ok: bool, summary: string)
    | Failure(message: string, code: string)

  datatype Content = Text(text: string) | Reasoning(text: string) | Other

  datatype EndReason = NoReason | ErrorEnd(message: string, code: string) | NoticeEnd(notice: NoticeKind) | Quiet

  /** Events after field extraction: absent or ill-typed fields read as "" or 0. */
  datatype Event =
    | UserMessage(fromUser: bool, text: string)
    | TextDelta(key: Key, text: string)
    | ReasoningDelta(key: Key, text: string)
    | UsageChunk(tokens: Usage)
    | Finish(turn: int, step: int)
    | AssistantMessage(turn: int, step: int, usage: Option<Usage>, content: seq<Content>)
    | ToolCall(callId: string, name: string, arguments: string)
    | ToolResult(callId: string, result: string, isError: bool)
    | TodoWrite(todos: seq<TodoItem>)
    | TurnEnd(reason: EndReason)
    | HostNotice(notice: NoticeKind)
    | SubagentStarted(childId: string)
    | SubagentFinished(childId: string, ok: bool, summary: string)
    | Ignored

  /** The projection as a value: aliases are positions in the block list. The block at position i has the id
      made of its kind and i + 1. */
  datatype View = View(blocks: seq<Block>, slots: map<Key, nat>, tools: map<string, nat>, todo: Option<nat>,
                       usage: Option<Usage>)

  const EMPTY := View([], map[], map[], None, None)

  ghost predicate SlotsMatch(v: View) {
    && (forall k | k in v.slots :: v.slots[k] < |v.blocks| && v.blocks[v.slots[k]].Assistant?)
    && (forall k, l | k in v.slots && l in v.slots && v.slots[k] == v.slots[l] :: k == l)
    && (forall i | 0 <= i < |v.blocks| && v.blocks[i].Assistant? :: exists k :: k in v.slots && v.slots[k] == i)
  }

  ghost predicate ToolsMatch(v: View) {
    && "" !in v.tools
    && (forall c | c in v.tools ::
          v.tools[c] < |v.blocks| && v.blocks[v.tools[c]].Tool? && v.blocks[v.tools[c]].callId == c)
    && (forall i | 0 <= i < |v.blocks| && v.blocks[i].Tool? ::
          v.blocks[i].callId in v.tools && v.tools[v.blocks[i].callId] == i)
  }

  ghost predicate TodoMatches(v: View) {
    && (v.todo.Some? ==> v.todo.value < |v.blocks| && v.blocks[v.todo.value].Todo?)
    && (forall i | 0 <= i < |v.blocks| && v.blocks[i].Todo? :: v.todo == Some(i))
  }

  /** Slots are in bijection with the assistant blocks, tool entries with the tool blocks, and the only todo
      block, if any, is the one remembered. */
  ghost predicate Consistent(v: View) {
    SlotsMatch(v) && ToolsMatch(v) && TodoMatches(v)
  }

  function Push(v: View, b: Block): View {
    v.(blocks := v.blocks + [b])
  }

  function OpenSlot(v: View, k: Key): View {
    if k in v.slots then v
    else Push(v, Assistant("", "", true)).(slots := v.slots[k := |v.blocks|])
  }

  function Update(v: View, i: nat, b: Block): View {
    if i < |v.blocks| then v.(blocks := v.blocks[i := b]) else v
  }

  function SlotOf(v: View, k: Key): (b: Block)
    requires k in v.slots
    ensures b.Assistant?
  {
    if v.slots[k] < |v.blocks| && v.blocks[v.slots[k]].Assistant? then v.blocks[v.slots[k]] else Assistant("", "", true)
  }

  function SetSlot(v: View, k: Key, b: Block): View
    requires k in v.slots
  {
    Update(v, v.slots[k], b)
  }

  /** Appends to the text or the reasoning of a slot. */
  function AddDelta(v: View, k: Key, text: string, reasoning: string): View {
    var o := OpenSlot(v, k);
    var b := SlotOf(o, k);
    SetSlot(o, k, Assistant(b.text + text, b.reasoning + reasoning, b.streaming))
  }

  function Settle(v: View, k: Key, content: Content): View {
    match content
    case Other => v
    case Text(text) => var o := OpenSlot(v, k); SetSlot(o, k, Assistant(text, SlotOf(o, k).reasoning, false))
    case Reasoning(text) => var o := OpenSlot(v, k); SetSlot(o, k, Assistant(SlotOf(o, k).text, text, false))
  }

  function SettleAll(v: View, turn: int, step: int, content: seq<Content>): View {
    if content == [] then v
    else
      var n := |content| - 1;
      Settle(SettleAll(v, turn, step, content[..n]), Key(turn, step, n), content[n])
  }

  function Stopped(b: Block): Block {
    if b.Assistant? then b.(streaming := false) else b
  }

  function StopAll(v: View): View {
    v.(blocks := seq(|v.blocks|, i requires 0 <= i < |v.blocks| => Stopped(v.blocks[i])))
  }

  function StopAt(blocks: seq<Block>, positions: set<nat>): (r: seq<Block>)
    ensures |r| == |blocks|
  {
    seq(|blocks|, i requires 0 <= i < |blocks| => if i in positions then Stopped(blocks[i]) else blocks[i])
  }

  /** The positions of the slots of one step. */
  function StepSlots(v: View, turn: int, step: int): set<nat> {
    PositionsOf(v.slots, set k | k in v.slots && k.turn == turn && k.step == step)
  }

  function PositionsOf(slots: map<Key, nat>, keys: set<Key>): set<nat> {
    set k | k in keys && k in slots :: slots[k]
  }

  lemma StopOneMore(blocks: seq<Block>, slots: map<Key, nat>, keys: set<Key>, k: Key)
    requires k in slots && slots[k] < |blocks|
    ensures var before := StopAt(blocks, PositionsOf(slots, keys));
            before[slots[k] := Stopped(before[slots[k]])] == StopAt(blocks, PositionsOf(slots, keys + {k}))
  {
    assert PositionsOf(slots, keys + {k}) == PositionsOf(slots, keys) + {slots[k]};
  }

  function StopStep(v: View, turn: int, step: int): View {
    v.(blocks := StopAt(v.blocks, StepSlots(v, turn, step)))
  }

  function OrElse(s: string, t: string): string {
    if s != "" then s else t
  }

  function ToolOf(v: View, c: string): (b: Block)
    requires c in v.tools
    ensures b.Tool?
  {
    if v.tools[c] < |v.blocks| && v.blocks[v.tools[c]].Tool? then v.blocks[v.tools[c]] else NewTool(c, "", "")
  }

  function NewTool(c: string, name: string, arguments: string): Block {
    Tool(c, name, arguments, "", false, false)
  }

  function OpenTool(v: View, c: string, name: string, arguments: string): View {
    if c in v.tools then v
    else Push(v, NewTool(c, name, arguments)).(tools := v.tools[c := |v.blocks|])
  }

  function OnToolCall(v: View, c: string, name: string, arguments: string): View {
    if c == "" then v
    else if c in v.tools then
      var t := ToolOf(v, c);
      Update(v, v.tools[c], t.(name := OrElse(name, t.name), arguments := OrElse(arguments, t.arguments)))
    else OpenTool(v, c, name, arguments)
  }

  function Answered(b: Block, result: string, isError: bool): Block
    requires b.Tool?
  {
    b.(result := result, isError := isError, done := true)
  }

  function OnToolResult(v: View, c: string, result: string, isError: bool): View {
    if c == "" then v
    else
      var o := OpenTool(v, c, "", "");
      Update(o, o.tools[c], Answered(ToolOf(o, c), result, isError))
  }

  function OnTodoWrite(v: View, todos: seq<TodoItem>): View {
    if v.todo.Some? then Update(v, v.todo.value, Todo(todos))
    else Push(v, Todo(todos)).(todo := Some(|v.blocks|))
  }

  function OnTurnEnd(v: View, reason: EndReason): View {
    match reason
    case ErrorEnd(message, code) => Push(StopAll(v), Failure(OrElse(message, "unknown error"), OrElse(code, "UNKNOWN")))
    case NoticeEnd(notice) => Push(StopAll(v), Notice(notice))
    case _ => StopAll(v)
  }

  /** The first subagent block of the child, or the number of blocks. */
  function FindSubagent(blocks: seq<Block>, childId: string): (i: nat)
    ensures i <= |blocks|
    ensures i < |blocks| ==> blocks[i].Subagent? && blocks[i].childId == childId
    ensures forall j | 0 <= j < i :: !(blocks[j].Subagent? && blocks[j].childId == childId)
  {
    FindSubagentFrom(blocks, childId, 0)
  }

  function FindSubagentFrom(blocks: seq<Block>, childId: string, start: nat): (i: nat)
    requires start <= |blocks|
    ensures start <= i <= |blocks|
    ensures i < |blocks| ==> blocks[i].Subagent? && blocks[i].childId == childId
    ensures forall j | start <= j < i :: !(blocks[j].Subagent? && blocks[j].childId == childId)
    decreases |blocks| - start
  {
    if start == |blocks| || (blocks[start].Subagent? && blocks[start].childId == childId) then start
    else FindSubagentFrom(blocks, childId, start + 1)
  }

  lemma FirstSubagent(blocks: seq<Block>, childId: string, i: nat)
    requires i <= |blocks|
    requires forall j | 0 <= j < i :: !(blocks[j].Subagent? && blocks[j].childId == childId)
    requires i < |blocks| ==> blocks[i].Subagent? && blocks[i].childId == childId
    ensures FindSubagent(blocks, childId) == i
  {
    var at := FindSubagent(blocks, childId);
    assert at <= i && i <= at;
  }

  function OnSubagentFinished(v: View, childId: string, ok: bool, summary: string): View {
    if childId == "" then v
    else Update(v, FindSubagent(v.blocks, childId), Subagent(childId, false, ok, summary))
  }

  function Apply(v: View, e: Event): View {
    match e
    case UserMessage(fromUser, text) => if fromUser && text != "" then Push(v, User(text)) else v
    case TextDelta(k, text) => AddDelta(v, k, text, "")
    case ReasoningDelta(k, text) => AddDelta(v, k, "", text)
    case UsageChunk(tokens) => v.(usage := Some(tokens))
    case Finish(turn, step) => StopStep(v, turn, step)
    case AssistantMessage(turn, step, usage, content) =>
      SettleAll(if usage.Some? then v.(usage := usage) else v, turn, step, content)
    case ToolCall(c, name, arguments) => OnToolCall(v, c, name, arguments)
    case ToolResult(c, result, isError) => OnToolResult(v, c, result, isError)
    case TodoWrite(todos) => OnTodoWrite(v, todos)
    case TurnEnd(reason) => OnTurnEnd(v, reason)
    case HostNotice(notice) => Push(StopAll(v), Notice(notice))
    case SubagentStarted(childId) => if childId == "" then v else Push(v, Subagent(childId, true, false, ""))
    case SubagentFinished(childId, ok, summary) => OnSubagentFinished(v, childId, ok, summary)
    case Ignored => v
  }

  function Project(events: seq<Event>): View {
    if events == [] then EMPTY
    else Apply(Project(events[..|events| - 1]), events[|events| - 1])
  }

  /** Two blocks with the same identity: kind, call or child id, and everything a kind never changes; a stopped
      assistant block stays stopped and a finished tool stays finished. */
  predicate Continues(b: Block, c: Block) {
    match b
    case User(_) => c == b
    case Assistant(_, _, streaming) => c.Assistant? && (c.streaming ==> streaming)
    case Tool(callId, _, _, _, _, done) => c.Tool? && c.callId == callId && (done ==> c.done)
    case Todo(_) => c.Todo?
    case Notice(_) => c == b
    case Subagent(childId, running, _, _) => c.Subagent? && c.childId == childId && (c.running ==> running)
    case Failure(_, _) => c == b
  }

  /** `w` extends `v`: nothing is removed, reordered or re-identified. */
  ghost predicate Extends(v: View, w: View) {
    && |v.blocks| <= |w.blocks|
    && (forall i | 0 <= i < |v.blocks| :: Continues(v.blocks[i], w.blocks[i]))
    && (forall k | k in v.slots :: k in w.slots && w.slots[k] == v.slots[k])
    && (forall c | c in v.tools :: c in w.tools && w.tools[c] == v.tools[c])
    && (v.todo.Some? ==> w.todo == v.todo)
  }

  lemma ExtendsTransitive(u: View, v: View, w: View)
    requires Extends(u, v) && Extends(v, w)
    ensures Extends(u, w)
  {
  }

  /** A longer list, the same aliases but for one more slot. */
  lemma SlotsGrow(v: View, w: View)
    requires SlotsMatch(v) && |v.blocks| <= |w.blocks| && w.slots == v.slots
    requires forall i | 0 <= i < |v.blocks| :: w.blocks[i].Assistant? <==> v.blocks[i].Assistant?
    requires forall i | |v.blocks| <= i < |w.blocks| :: !w.blocks[i].Assistant?
    ensures SlotsMatch(w)
  {
    forall i | 0 <= i < |w.blocks| && w.blocks[i].Assistant?
      ensures exists k :: k in w.slots && w.slots[k] == i
    {
      assert v.blocks[i].Assistant?;
      var k :| k in v.slots && v.slots[k] == i;
      assert k in w.slots && w.slots[k] == i;
    }
  }

  lemma NewSlotMatches(v: View, k: Key)
    requires SlotsMatch(v) && k !in v.slots
    ensures SlotsMatch(OpenSlot(v, k))
  {
    var o := OpenSlot(v, k);
    forall i | 0 <= i < |o.blocks| && o.blocks[i].Assistant?
      ensures exists l :: l in o.slots && o.slots[l] == i
    {
      if i < |v.blocks| {
        assert v.blocks[i].Assistant?;
        var l :| l in v.slots && v.slots[l] == i;
        assert l in o.slots && o.slots[l] == i;
      } else {
        assert o.slots[k] == i;
      }
    }
  }

  lemma ToolsGrow(v: View, w: View)
    requires ToolsMatch(v) && |v.blocks| <= |w.blocks| && w.tools == v.tools
    requires forall i | 0 <= i < |v.blocks| ::
               && (w.blocks[i].Tool? <==> v.blocks[i].Tool?)
               && (v.blocks[i].Tool? ==> w.blocks[i].callId == v.blocks[i].callId)
    requires forall i | |v.blocks| <= i < |w.blocks| :: !w.blocks[i].Tool?
    ensures ToolsMatch(w)
  {
  }

  lemma TodoGrows(v: View, w: View)
    requires TodoMatches(v) && |v.blocks| <= |w.blocks| && w.todo == v.todo
    requires forall i | 0 <= i < |v.blocks| :: w.blocks[i].Todo? <==> v.blocks[i].Todo?
    requires forall i | |v.blocks| <= i < |w.blocks| :: !w.blocks[i].Todo?
    ensures TodoMatches(w)
  {
  }

  lemma OpenSlotKeeps(v: View, k: Key)
    requires Consistent(v)
    ensures Consistent(OpenSlot(v, k)) && Extends(v, OpenSlot(v, k)) && k in OpenSlot(v, k).slots
  {
    if k !in v.slots {
      NewSlotMatches(v, k);
      ToolsGrow(v, OpenSlot(v, k));
      TodoGrows(v, OpenSlot(v, k));
    }
  }

  /** Replacing a block by one that continues it. */
  lemma UpdateKeeps(v: View, i: nat, b: Block)
    requires Consistent(v) && i < |v.blocks| && Continues(v.blocks[i], b)
    ensures Consistent(Update(v, i, b)) && Extends(v, Update(v, i, b))
  {
    var w := Update(v, i, b);
    forall j | 0 <= j < |v.blocks|
      ensures Continues(v.blocks[j], w.blocks[j])
    {
      ContinuesItself(v.blocks[j]);
    }
    SameKinds(v, w);
  }

  lemma ContinuesItself(b: Block)
    ensures Continues(b, b)
  {
  }

  lemma SameKinds(v: View, w: View)
    requires Consistent(v) && |v.blocks| == |w.blocks| && w == v.(blocks := w.blocks)
    requires forall j | 0 <= j < |v.blocks| :: Continues(v.blocks[j], w.blocks[j])
    ensures Consistent(w)
  {
    SlotsGrow(v, w);
    ToolsGrow(v, w);
    TodoGrows(v, w);
  }

  lemma PushKeeps(v: View, b: Block)
    requires Consistent(v) && !b.Assistant? && !b.Tool? && !b.Todo?
    ensures Consistent(Push(v, b)) && Extends(v, Push(v, b))
  {
    SlotsGrow(v, Push(v, b));
    ToolsGrow(v, Push(v, b));
    TodoGrows(v, Push(v, b));
  }

  /** Stopping any set of assistant blocks. */
  lemma StopKeeps(v: View, w: View)
    requires Consistent(v) && |w.blocks| == |v.blocks| && w == v.(blocks := w.blocks)
    requires forall i | 0 <= i < |v.blocks| :: w.blocks[i] == v.blocks[i] || w.blocks[i] == Stopped(v.blocks[i])
    ensures Consistent(w) && Extends(v, w)
  {
    SameKinds(v, w);
  }

  lemma SettleKeeps(v: View, k: Key, content: Content)
    requires Consistent(v)
    ensures Consistent(Settle(v, k, content)) && Extends(v, Settle(v, k, content))
  {
    OpenSlotKeeps(v, k);
    var o := OpenSlot(v, k);
    match content
    case Other =>
    case Text(text) => UpdateKeeps(o, o.slots[k], Assistant(text, SlotOf(o, k).reasoning, false));
    case Reasoning(text) => UpdateKeeps(o, o.slots[k], Assistant(SlotOf(o, k).text, text, false));
  }

  lemma {:induction false} SettleAllKeeps(v: View, turn: int, step: int, content: seq<Content>)
    requires Consistent(v)
    ensures Consistent(SettleAll(v, turn, step, content)) && Extends(v, SettleAll(v, turn, step, content))
  {
    if content != [] {
      var n := |content| - 1;
      var u := SettleAll(v, turn, step, content[..n]);
      SettleAllKeeps(v, turn, step, content[..n]);
      SettleKeeps(u, Key(turn, step, n), content[n]);
      ExtendsTransitive(v, u, Settle(u, Key(turn, step, n), content[n]));
    } else {
      UnchangedKeeps(v, v);
    }
  }

  lemma OpenToolKeeps(v: View, c: string, name: string, arguments: string)
    requires Consistent(v) && c != ""
    ensures Consistent(OpenTool(v, c, name, arguments)) && Extends(v, OpenTool(v, c, name, arguments))
    ensures c in OpenTool(v, c, name, arguments).tools
  {
    if c !in v.tools {
      var o := OpenTool(v, c, name, arguments);
      SlotsGrow(v, o);
      TodoGrows(v, o);
      assert ToolsMatch(o);
    }
  }

  lemma DeltaKeeps(v: View, k: Key, text: string, reasoning: string)
    requires Consistent(v)
    ensures Consistent(AddDelta(v, k, text, reasoning)) && Extends(v, AddDelta(v, k, text, reasoning))
  {
    OpenSlotKeeps(v, k);
    var o := OpenSlot(v, k);
    var b := SlotOf(o, k);
    UpdateKeeps(o, o.slots[k], Assistant(b.text + text, b.reasoning + reasoning, b.streaming));
  }

  /** Every event keeps the aliases consistent and only extends what was there. */
  lemma ApplyKeeps(v: View, e: Event)
    requires Consistent(v)
    ensures Consistent(Apply(v, e)) && Extends(v, Apply(v, e))
  {
    match e
    case UserMessage(_, text) => PushKeeps(v, User(text)); UnchangedKeeps(v, v);
    case TextDelta(k, text) => DeltaKeeps(v, k, text, "");
    case ReasoningDelta(k, text) => DeltaKeeps(v, k, "", text);
    case UsageChunk(tokens) => UnchangedKeeps(v, v.(usage := Some(tokens)));
    case Finish(turn, step) => StopKeeps(v, StopStep(v, turn, step));
    case AssistantMessage(turn, step, usage, content) =>
      var u := if usage.Some? then v.(usage := usage) else v;
      UnchangedKeeps(v, u);
      SettleAllKeeps(u, turn, step, content);
      ExtendsTransitive(v, u, Apply(v, e));
    case ToolCall(c, name, arguments) => ToolCallKeeps(v, c, name, arguments);
    case ToolResult(c, result, isError) => ToolResultKeeps(v, c, result, isError);
    case TodoWrite(todos) => TodoKeeps(v, todos);
    case TurnEnd(reason) => EndKeeps(v, reason);
    case HostNotice(notice) => StopThenPush(v, Notice(notice));
    case SubagentStarted(childId) => if childId != "" { PushKeeps(v, Subagent(childId, true, false, "")); }
    case SubagentFinished(childId, ok, summary) => SubagentKeeps(v, childId, ok, summary);
    case Ignored => UnchangedKeeps(v, v);
  }

  lemma ToolCallKeeps(v: View, c: string, name: string, arguments: string)
    requires Consistent(v)
    ensures Consistent(OnToolCall(v, c, name, arguments)) && Extends(v, OnToolCall(v, c, name, arguments))
  {
    if c != "" {
      OpenToolKeeps(v, c, name, arguments);
      if c in v.tools {
        var t := ToolOf(v, c);
        UpdateKeeps(v, v.tools[c], t.(name := OrElse(name, t.name), arguments := OrElse(arguments, t.arguments)));
      }
    }
  }

  lemma ToolResultKeeps(v: View, c: string, result: string, isError: bool)
    requires Consistent(v)
    ensures Consistent(OnToolResult(v, c, result, isError)) && Extends(v, OnToolResult(v, c, result, isError))
  {
    if c != "" {
      OpenToolKeeps(v, c, "", "");
      var o := OpenTool(v, c, "", "");
      UpdateKeeps(o, o.tools[c], Answered(ToolOf(o, c), result, isError));
    }
  }

  lemma UnchangedKeeps(v: View, w: View)
    requires Consistent(v) && w.(usage := v.usage) == v
    ensures Consistent(w) && Extends(v, w)
  {
    forall i | 0 <= i < |v.blocks|
      ensures Continues(v.blocks[i], w.blocks[i])
    {
      ContinuesItself(v.blocks[i]);
    }
    SameKinds(v, w.(usage := v.usage));
    SlotsGrow(v, w);
  }

  lemma TodoKeeps(v: View, todos: seq<TodoItem>)
    requires Consistent(v)
    ensures Consistent(OnTodoWrite(v, todos)) && Extends(v, OnTodoWrite(v, todos))
  {
    if v.todo.Some? {
      UpdateKeeps(v, v.todo.value, Todo(todos));
    } else {
      SlotsGrow(v, OnTodoWrite(v, todos));
      ToolsGrow(v, OnTodoWrite(v, todos));
    }
  }

  lemma StopThenPush(v: View, b: Block)
    requires Consistent(v) && !b.Assistant? && !b.Tool? && !b.Todo?
    ensures Consistent(Push(StopAll(v), b)) && Extends(v, Push(StopAll(v), b))
  {
    StopKeeps(v, StopAll(v));
    PushKeeps(StopAll(v), b);
    ExtendsTransitive(v, StopAll(v), Push(StopAll(v), b));
  }

  lemma EndKeeps(v: View, reason: EndReason)
    requires Consistent(v)
    ensures Consistent(OnTurnEnd(v, reason)) && Extends(v, OnTurnEnd(v, reason))
  {
    match reason
    case ErrorEnd(message, code) => StopThenPush(v, Failure(OrElse(message, "unknown error"), OrElse(code, "UNKNOWN")));
    case NoticeEnd(notice) => StopThenPush(v, Notice(notice));
    case _ => StopKeeps(v, StopAll(v));
  }

  lemma SubagentKeeps(v: View, childId: string, ok: bool, summary: string)
    requires Consistent(v)
    ensures Consistent(OnSubagentFinished(v, childId, ok, summary))
            && Extends(v, OnSubagentFinished(v, childId, ok, summary))
  {
    var i := FindSubagent(v.blocks, childId);
    if childId != "" && i < |v.blocks| {
      UpdateKeeps(v, i, Subagent(childId, false, ok, summary));
    } else {
      UnchangedKeeps(v, v);
    }
  }

  lemma {:induction false} ProjectionConsistent(events: seq<Event>)
    ensures Consistent(Project(events))
  {
    if events != [] {
      var n := |events| - 1;
      ProjectionConsistent(events[..n]);
      ApplyKeeps(Project(events[..n]), events[n]);
    }
  }

  lemma ExtendsItself(v: View)
    ensures Extends(v, v)
  {
  }

  /** Over every event sequence the aliases are consistent, and every later view extends every earlier one. */
  lemma {:induction false} ProjectionOnlyExtends(events: seq<Event>, more: seq<Event>)
    ensures Consistent(Project(events + more))
    ensures Extends(Project(events), Project(events + more))
    decreases |more|
  {
    ProjectionConsistent(events + more);
    if more == [] {
      assert events + more == events;
      ExtendsItself(Project(events));
    } else {
      var n := |more| - 1;
      var before := events + more[..n];
      ProjectionOnlyExtends(events, more[..n]);
      assert (events + more)[..|events| + n] == before;
      ApplyKeeps(Project(before), more[n]);
      ExtendsTransitive(Project(events), Project(before), Project(events + more));
    }
  }

  lemma CommuteOnKnown(v: View, c: string, name: string, arguments: string, result: string, isError: bool)
    requires Consistent(v) && c in v.tools
    ensures OnToolResult(OnToolCall(v, c, name, arguments), c, result, isError)
         == OnToolCall(OnToolResult(v, c, result, isError), c, name, arguments)
  {
    var i, t := v.tools[c], ToolOf(v, c);
    var named := t.(name := OrElse(name, t.name), arguments := OrElse(arguments, t.arguments));
    assert OnToolCall(v, c, name, arguments) == v.(blocks := v.blocks[i := named]);
    assert OnToolResult(v, c, result, isError) == v.(blocks := v.blocks[i := Answered(t, result, isError)]);
    assert v.blocks[i := named][i := Answered(named, result, isError)]
        == v.blocks[i := Answered(named, result, isError)];
  }

  lemma CommuteOnNew(v: View, c: string, name: string, arguments: string, result: string, isError: bool)
    requires Consistent(v) && c != "" && c !in v.tools
    ensures OnToolResult(OnToolCall(v, c, name, arguments), c, result, isError)
         == OnToolCall(OnToolResult(v, c, result, isError), c, name, arguments)
  {
    var i, tools := |v.blocks|, v.tools[c := |v.blocks|];
    var named, blank := NewTool(c, name, arguments), NewTool(c, "", "");
    var called := View(v.blocks + [named], v.slots, tools, v.todo, v.usage);
    var blanked := View(v.blocks + [blank], v.slots, tools, v.todo, v.usage);
    assert OnToolCall(v, c, name, arguments) == called;
    assert OnToolResult(v, c, result, isError)
        == blanked.(blocks := blanked.blocks[i := Answered(blank, result, isError)]);
    assert called.blocks[i := Answered(named, result, isError)] == v.blocks + [Answered(named, result, isError)];
    assert blanked.blocks[i := Answered(blank, result, isError)] == v.blocks + [Answered(blank, result, isError)];
  }

  /** Adjacent call and result events of one tool commute, down to the position of a new block. */
  lemma CallAndResultCommute(v: View, c: string, name: string, arguments: string, result: string, isError: bool)
    requires Consistent(v)
    ensures Apply(Apply(v, ToolCall(c, name, arguments)), ToolResult(c, result, isError))
         == Apply(Apply(v, ToolResult(c, result, isError)), ToolCall(c, name, arguments))
  {
    if c in v.tools {
      CommuteOnKnown(v, c, name, arguments, result, isError);
    } else if c != "" {
      CommuteOnNew(v, c, name, arguments, result, isError);
    }
  }

  /** assistant/message settles the listed field of every slot, whatever deltas came before, and keeps the
      field it does not list. */
  lemma MessageOverridesDeltas(v: View, turn: int, step: int, usage: Option<Usage>, content: seq<Content>, i: nat)
    requires Consistent(v) && i < |content| && !content[i].Other?
    ensures var w, k := Apply(v, AssistantMessage(turn, step, usage, content)), Key(turn, step, i);
            && k in w.slots
            && SlotOf(w, k) == if content[i].Text?
                               then Assistant(content[i].text, SlotOf(OpenSlot(v, k), k).reasoning, false)
                               else Assistant(SlotOf(OpenSlot(v, k), k).text, content[i].text, false)
  {
    SettledSlot(if usage.Some? then v.(usage := usage) else v, turn, step, content, i);
  }

  lemma {:induction false} SettledSlot(v: View, turn: int, step: int, content: seq<Content>, i: nat)
    requires Consistent(v) && i < |content| && !content[i].Other?
    ensures var w, k := SettleAll(v, turn, step, content), Key(turn, step, i);
            && k in w.slots
            && SlotOf(w, k) == if content[i].Text?
                               then Assistant(content[i].text, SlotOf(OpenSlot(v, k), k).reasoning, false)
                               else Assistant(SlotOf(OpenSlot(v, k), k).text, content[i].text, false)
  {
    var n := |content| - 1;
    var u := SettleAll(v, turn, step, content[..n]);
    SettleAllKeeps(v, turn, step, content[..n]);
    if i == n {
      UnsettledSlot(v, turn, step, content[..n], n);
      SettleSets(u, Key(turn, step, n), content[n]);
    } else {
      assert content[..n][i] == content[i];
      SettledSlot(v, turn, step, content[..n], i);
      SettleLeavesOthers(u, Key(turn, step, n), content[n], Key(turn, step, i));
    }
  }

  lemma SettleSets(v: View, k: Key, content: Content)
    requires Consistent(v) && !content.Other?
    ensures var w, was := Settle(v, k, content), SlotOf(OpenSlot(v, k), k);
            && k in w.slots
            && SlotOf(w, k) == if content.Text? then Assistant(content.text, was.reasoning, false)
                               else Assistant(was.text, content.text, false)
  {
    OpenSlotKeeps(v, k);
  }

  lemma SettleLeavesOthers(v: View, k: Key, content: Content, l: Key)
    requires Consistent(v) && k != l
    ensures SlotOf(OpenSlot(Settle(v, k, content), l), l) == SlotOf(OpenSlot(v, l), l)
    ensures l in v.slots ==> l in Settle(v, k, content).slots && SlotOf(Settle(v, k, content), l) == SlotOf(v, l)
  {
    OpenSlotKeeps(v, k);
  }

  lemma {:induction false} UnsettledSlot(v: View, turn: int, step: int, content: seq<Content>, i: nat)
    requires Consistent(v) && |content| <= i
    ensures var u, k := SettleAll(v, turn, step, content), Key(turn, step, i);
            SlotOf(OpenSlot(u, k), k) == SlotOf(OpenSlot(v, k), k)
  {
    if content != [] {
      var n := |content| - 1;
      UnsettledSlot(v, turn, step, content[..n], i);
      SettleAllKeeps(v, turn, step, content[..n]);
      SettleLeavesOthers(SettleAll(v, turn, step, content[..n]), Key(turn, step, n), content[n], Key(turn, step, i));
    }
  }

  /** A block as the renderer holds it: a shared object with a fixed id. */
  class Cell {
    const id: nat
    var block: Block

    constructor (id: nat, block: Block)
      ensures this.id == id && this.block == block
    {
      this.id, this.block := id, block;
    }

    function Position(): nat {
      if id == 0 then 0 else id - 1
    }
  }

  ghost function BlocksOf(cells: seq<Cell>): seq<Block>
    reads cells
  {
    seq(|cells|, i requires 0 <= i < |cells| reads cells => cells[i].block)
  }

  class DshSessionProjection {
    var blocks: seq<Cell>
    var assistantSlots: map<Key, Cell>
    var toolByCallId: map<string, Cell>
    var todoBlock: Cell?
    var idSeq: nat
    var lastUsage: Option<Usage>

    ghost predicate Listed(c: Cell)
      reads this
    {
      1 <= c.id <= |blocks| && blocks[c.id - 1] == c
    }

    /** Ids number the blocks in order, and every alias leads to a listed block. */
    ghost predicate Valid()
      reads this
    {
      && idSeq == |blocks|
      && (forall i | 0 <= i < |blocks| :: blocks[i].id == i + 1)
      && (forall k | k in assistantSlots :: Listed(assistantSlots[k]))
      && (forall c | c in toolByCallId :: Listed(toolByCallId[c]))
      && (todoBlock != null ==> Listed(todoBlock))
    }

    ghost function Values(): seq<Block>
      reads this`blocks, blocks
    {
      BlocksOf(blocks)
    }

    ghost function SlotPositions(): map<Key, nat>
      reads this`assistantSlots
    {
      map k | k in assistantSlots :: assistantSlots[k].Position()
    }

    ghost function ToolPositions(): map<string, nat>
      reads this`toolByCallId
    {
      map c | c in toolByCallId :: toolByCallId[c].Position()
    }

    ghost function TodoPosition(): Option<nat>
      reads this`todoBlock
    {
      if todoBlock == null then None else Some(todoBlock.Position())
    }

    ghost function Abs(): View
      reads this, blocks
    {
      View(Values(), SlotPositions(), ToolPositions(), TodoPosition(), lastUsage)
    }

    constructor ()
      ensures Valid() && Abs() == EMPTY
    {
      blocks, assistantSlots, toolByCallId, todoBlock, idSeq, lastUsage := [], map[], map[], null, 0, None;
    }

    /** nextId and the push of a new block. */
    method Append(block: Block) returns (cell: Cell)
      requires Valid()
      modifies this`blocks, this`idSeq
      ensures Valid() && fresh(cell) && Listed(cell) && cell.Position() == |old(blocks)| && cell.block == block
      ensures blocks == old(blocks) + [cell]
      ensures Values() == old(Values()) + [block]
    {
      idSeq := idSeq + 1;
      cell := new Cell(idSeq, block);
      blocks := blocks + [cell];
    }

    /** An assignment through an alias. */
    method Write(cell: Cell, block: Block)
      requires Valid() && Listed(cell)
      modifies cell
      ensures Valid() && Values() == old(Values())[cell.Position() := block]
    {
      cell.block := block;
    }

    method AssistantSlot(k: Key) returns (cell: Cell)
      requires Valid()
      modifies this`blocks, this`idSeq, this`assistantSlots
      ensures Valid() && Abs() == OpenSlot(old(Abs()), k)
      ensures k in assistantSlots && assistantSlots[k] == cell && Listed(cell)
      ensures old(blocks) <= blocks && forall i | |old(blocks)| <= i < |blocks| :: fresh(blocks[i])
    {
      if k in assistantSlots {
        cell := assistantSlots[k];
      } else {
        cell := Append(Assistant("", "", true));
        assistantSlots := assistantSlots[k := cell];
        assert SlotPositions() == old(SlotPositions())[k := |old(blocks)|];
      }
    }

    method OnDelta(k: Key, text: string, reasoning: string)
      requires Valid() && Consistent(Abs())
      modifies this`blocks, this`idSeq, this`assistantSlots, blocks
      ensures Valid() && Abs() == AddDelta(old(Abs()), k, text, reasoning)
    {
      OpenSlotKeeps(Abs(), k);
      var cell := AssistantSlot(k);
      ghost var o := Abs();
      assert o.slots[k] == cell.Position() && SlotOf(o, k) == cell.block;
      var b := cell.block;
      Write(cell, Assistant(b.text + text, b.reasoning + reasoning, b.streaming));
    }

    method ToolCell(c: string, name: string, arguments: string) returns (cell: Cell)
      requires Valid() && c !in toolByCallId
      modifies this`blocks, this`idSeq, this`toolByCallId
      ensures Valid() && Abs() == OpenTool(old(Abs()), c, name, arguments)
      ensures c in toolByCallId && toolByCallId[c] == cell && Listed(cell)
      ensures old(blocks) <= blocks && forall i | |old(blocks)| <= i < |blocks| :: fresh(blocks[i])
    {
      cell := Append(NewTool(c, name, arguments));
      toolByCallId := toolByCallId[c := cell];
      assert ToolPositions() == old(ToolPositions())[c := |old(blocks)|];
    }

    method OnToolCallEvent(c: string, name: string, arguments: string)
      requires Valid() && Consistent(Abs())
      modifies this`blocks, this`idSeq, this`toolByCallId, blocks
      ensures Valid() && Abs() == OnToolCall(old(Abs()), c, name, arguments)
    {
      if c == "" {
        return;
      }
      if c in toolByCallId {
        var cell := toolByCallId[c];
        ghost var v := Abs();
        assert v.tools[c] == cell.Position() && ToolOf(v, c) == cell.block;
        var t := cell.block;
        Write(cell, t.(name := OrElse(name, t.name), arguments := OrElse(arguments, t.arguments)));
      } else {
        var cell := ToolCell(c, name, arguments);
      }
    }

    method OnToolResultEvent(c: string, result: string, isError: bool)
      requires Valid() && Consistent(Abs())
      modifies this`blocks, this`idSeq, this`toolByCallId, blocks
      ensures Valid() && Abs() == OnToolResult(old(Abs()), c, result, isError)
    {
      if c == "" {
        return;
      }
      OpenToolKeeps(Abs(), c, "", "");
      var cell;
      if c in toolByCallId {
        cell := toolByCallId[c];
      } else {
        cell := ToolCell(c, "", "");
      }
      ghost var o := Abs();
      assert o == OpenTool(old(Abs()), c, "", "");
      assert o.tools[c] == cell.Position() && ToolOf(o, c) == cell.block;
      Write(cell, Answered(cell.block, result, isError));
    }

    method OnTodo(todos: seq<TodoItem>)
      requires Valid() && Consistent(Abs())
      modifies this`blocks, this`idSeq, this`todoBlock, blocks
      ensures Valid() && Abs() == OnTodoWrite(old(Abs()), todos)
    {
      if todoBlock != null {
        Write(todoBlock, Todo(todos));
      } else {
        todoBlock := Append(Todo(todos));
      }
    }

    /** The loop over slots that stops their streaming. */
    method StopSlots(keys: set<Key>)
      requires Valid() && keys <= assistantSlots.Keys
      modifies blocks
      ensures Valid()
      ensures Values() == StopAt(old(Values()), PositionsOf(SlotPositions(), keys))
    {
      ghost var was, slots := Values(), SlotPositions();
      var todo := keys;
      ghost var done: set<Key> := {};
      while todo != {}
        invariant done + todo == keys
        invariant Values() == StopAt(was, PositionsOf(slots, done))
        decreases |todo|
      {
        var k :| k in todo;
        StopOneMore(was, slots, done, k);
        StopCell(assistantSlots[k]);
        todo, done := todo - {k}, done + {k};
      }
      assert done == keys;
    }

    method StopCell(cell: Cell)
      requires Valid() && Listed(cell)
      modifies cell
      ensures Valid() && Values() == old(Values())[cell.Position() := Stopped(old(Values())[cell.Position()])]
    {
      Write(cell, Stopped(cell.block));
    }

    method StopAllSlots()
      requires Valid() && Consistent(Abs())
      modifies blocks
      ensures Valid() && Abs() == StopAll(old(Abs()))
    {
      AllSlotsAreAllAssistants(Abs());
      assert SlotPositions().Keys == assistantSlots.Keys;
      StopSlots(assistantSlots.Keys);
    }

    method OnFinish(turn: int, step: int)
      requires Valid()
      modifies blocks
      ensures Valid() && Abs() == StopStep(old(Abs()), turn, step)
    {
      var keys := set k | k in assistantSlots && k.turn == turn && k.step == step;
      assert keys == set k | k in SlotPositions() && k.turn == turn && k.step == step;
      StopSlots(keys);
    }

    method OnAssistantMessage(turn: int, step: int, usage: Option<Usage>, content: seq<Content>)
      requires Valid() && Consistent(Abs())
      modifies this, blocks
      ensures Valid()
      ensures Abs() == Apply(old(Abs()), AssistantMessage(turn, step, usage, content))
    {
      UnchangedKeeps(Abs(), if usage.Some? then Abs().(usage := usage) else Abs());
      if usage.Some? {
        ReportUsage(usage.value);
      }
      SettleContent(turn, step, content);
    }

    method ReportUsage(tokens: Usage)
      requires Valid()
      modifies this`lastUsage
      ensures Valid() && Abs() == old(Abs()).(usage := Some(tokens))
    {
      lastUsage := Some(tokens);
    }

    method SettleContent(turn: int, step: int, content: seq<Content>)
      requires Valid() && Consistent(Abs())
      modifies this`blocks, this`idSeq, this`assistantSlots, blocks
      ensures Valid() && Abs() == SettleAll(old(Abs()), turn, step, content)
    {
      ghost var start := Abs();
      for i := 0 to |content|
        invariant Valid() && Abs() == SettleAll(start, turn, step, content[..i])
        invariant Consistent(Abs())
        invariant old(blocks) <= blocks && forall j | |old(blocks)| <= j < |blocks| :: fresh(blocks[j])
      {
        assert content[..i + 1][..i] == content[..i];
        SettleKeeps(Abs(), Key(turn, step, i), content[i]);
        SettleOne(Key(turn, step, i), content[i]);
      }
      assert content[..|content|] == content;
    }

    method SettleOne(k: Key, content: Content)
      requires Valid() && Consistent(Abs())
      modifies this`blocks, this`idSeq, this`assistantSlots, blocks
      ensures Valid() && Abs() == Settle(old(Abs()), k, content)
      ensures old(blocks) <= blocks && forall i | |old(blocks)| <= i < |blocks| :: fresh(blocks[i])
    {
      if content.Other? {
        return;
      }
      OpenSlotKeeps(Abs(), k);
      var cell := AssistantSlot(k);
      ghost var o := Abs();
      assert o.slots[k] == cell.Position() && SlotOf(o, k) == cell.block;
      if content.Text? {
        Write(cell, Assistant(content.text, cell.block.reasoning, false));
      } else {
        Write(cell, Assistant(cell.block.text, content.text, false));
      }
    }

    method Add(block: Block)
      requires Valid()
      modifies this`blocks, this`idSeq
      ensures Valid() && Abs() == Push(old(Abs()), block)
    {
      var cell := Append(block);
    }

    method OnTurnEndEvent(reason: EndReason)
      requires Valid() && Consistent(Abs())
      modifies this`blocks, this`idSeq, blocks
      ensures Valid() && Abs() == OnTurnEnd(old(Abs()), reason)
    {
      StopAllSlots();
      match reason
      case ErrorEnd(message, code) =>
        Add(Failure(OrElse(message, "unknown error"), OrElse(code, "UNKNOWN")));
      case NoticeEnd(notice) =>
        Add(Notice(notice));
      case _ =>
    }

    method OnSubagent(childId: string, ok: bool, summary: string)
      requires Valid()
      modifies blocks
      ensures Valid() && Abs() == OnSubagentFinished(old(Abs()), childId, ok, summary)
    {
      if childId == "" {
        return;
      }
      var i := 0;
      while i < |blocks| && !(blocks[i].block.Subagent? && blocks[i].block.childId == childId)
        invariant i <= |blocks|
        invariant forall j | 0 <= j < i :: !(blocks[j].block.Subagent? && blocks[j].block.childId == childId)
      {
        i := i + 1;
      }
      assert i < |blocks| ==> Values()[i] == blocks[i].block;
      FirstSubagent(Values(), childId, i);
      if i < |blocks| {
        Write(blocks[i], Subagent(childId, false, ok, summary));
      }
    }

    method PushNotice(notice: NoticeKind)
      requires Valid() && Consistent(Abs())
      modifies this`blocks, this`idSeq, blocks
      ensures Valid() && Abs() == Apply(old(Abs()), HostNotice(notice))
    {
      StopAllSlots();
      Add(Notice(notice));
    }

    method ApplySubagent(e: Event)
      requires Valid() && (e.SubagentStarted? || e.SubagentFinished?)
      modifies this`blocks, this`idSeq, blocks
      ensures Valid() && Abs() == Apply(old(Abs()), e)
    {
      if e.childId == "" {
        return;
      }
      if e.SubagentStarted? {
        Add(Subagent(e.childId, true, false, ""));
      } else {
        OnSubagent(e.childId, e.ok, e.summary);
      }
    }

    method OnUserMessage(fromUser: bool, text: string)
      requires Valid()
      modifies this`blocks, this`idSeq
      ensures Valid() && Abs() == Apply(old(Abs()), UserMessage(fromUser, text))
    {
      if fromUser && text != "" {
        Add(User(text));
      }
    }

    /** The session events; notices of the host and subagent notifications have their own entries. */
    method ApplyEvent(e: Event)
      requires Valid() && Consistent(Abs())
      requires !e.HostNotice? && !e.SubagentStarted? && !e.SubagentFinished?
      modifies this, blocks
      ensures Valid() && Abs() == Apply(old(Abs()), e)
      ensures Consistent(Abs()) && Extends(old(Abs()), Abs())
    {
      ApplyKeeps(Abs(), e);
      match e
      case UserMessage(fromUser, text) => OnUserMessage(fromUser, text);
      case TextDelta(k, text) => OnDelta(k, text, "");
      case ReasoningDelta(k, text) => OnDelta(k, "", text);
      case UsageChunk(tokens) => ReportUsage(tokens);
      case Finish(turn, step) => OnFinish(turn, step);
      case AssistantMessage(turn, step, usage, content) => OnAssistantMessage(turn, step, usage, content);
      case ToolCall(c, name, arguments) => OnToolCallEvent(c, name, arguments);
      case ToolResult(c, result, isError) => OnToolResultEvent(c, result, isError);
      case TodoWrite(todos) => OnTodo(todos);
      case TurnEnd(reason) => OnTurnEndEvent(reason);
      case _ =>
    }
  }

  lemma AllSlotsAreAllAssistants(v: View)
    requires Consistent(v)
    ensures StopAll(v).blocks == StopAt(v.blocks, PositionsOf(v.slots, v.slots.Keys))
  {
    forall i | 0 <= i < |v.blocks|
      ensures StopAll(v).blocks[i] == StopAt(v.blocks, PositionsOf(v.slots, v.slots.Keys))[i]
    {
      if v.blocks[i].Assistant? {
        var k :| k in v.slots && v.slots[k] == i;
      }
    }
  }
}
