/** What becomes of calls handed to a process of GoSidecarRpc: in which order they are written, what a broken write
    does, how a reply arrives, and how a dead process is cleaned up after. */
module GoSidecarWrites {
  import opened Bytes
  import opened Wrappers
  import opened GoSidecarRpc

  // ---------------------------------------------------------------- the order of writes

  datatype Write = Write(call: CallId, result: WriteResult)

  /** Whether this section hands call `c` to process `p`: before it the call was registered, behind it it waits. */
  predicate HandsOver(w: World, a: Action, p: Pid) {
    && a.CallStep? && a.call < |w.calls| && w.calls[a.call] == Registered(p)
    && a.call < |Step(w, a).calls| && Step(w, a).calls[a.call].Sent?
  }

  predicate Writes(w: World, a: Action, p: Pid) {
    a.WriterStep? && a.p == p && p < |w.procs| && w.procs[p].writer.Writing? && w.procs[p].queue != []
  }

  /** The calls handed to process `p` in a run, in order. */
  function HandedTo(actions: seq<Action>, p: Pid): seq<CallId> {
    if actions == [] then []
    else
      var before, a := actions[..|actions| - 1], actions[|actions| - 1];
      HandedTo(before, p) + if HandsOver(Run(before), a, p) then [a.call] else []
  }

  /** The writes its loop has tried, in order. */
  function WrittenBy(actions: seq<Action>, p: Pid): seq<Write> {
    if actions == [] then []
    else
      var before, a := actions[..|actions| - 1], actions[|actions| - 1];
      WrittenBy(before, p) + if Writes(Run(before), a, p) then [Write(Run(before).procs[p].queue[0], a.result)] else []
  }

  function CallsOf(writes: seq<Write>): (r: seq<CallId>)
    ensures |r| == |writes|
  {
    seq(|writes|, i requires 0 <= i < |writes| => writes[i].call)
  }

  function QueueOf(w: World, p: Pid): seq<CallId> {
    if p < |w.procs| then w.procs[p].queue else []
  }

  lemma HandedSnoc(actions: seq<Action>, a: Action, p: Pid)
    ensures HandedTo(actions + [a], p) == HandedTo(actions, p) + if HandsOver(Run(actions), a, p) then [a.call] else []
    ensures WrittenBy(actions + [a], p) == WrittenBy(actions, p)
         + if Writes(Run(actions), a, p) then [Write(Run(actions).procs[p].queue[0], a.result)] else []
  {
    assert (actions + [a])[..|actions|] == actions;
  }

  /** What a section does to the queue of `p`. */
  lemma QueueSection(w: World, a: Action, p: Pid)
    requires HandsOver(w, a, p) ==> p < |w.procs|
    ensures QueueOf(Step(w, a), p)
         == if HandsOver(w, a, p) then QueueOf(w, p) + [a.call]
            else if Writes(w, a, p) then QueueOf(w, p)[1..] else QueueOf(w, p)
    ensures |QueueOf(w, p)| <= QUEUE_CAPACITY ==> |QueueOf(Step(w, a), p)| <= QUEUE_CAPACITY
  {
  }

  lemma HandsToProcess(w: World, a: Action, p: Pid)
    requires HandsOver(w, a, p)
    ensures p < |w.procs|
  {
  }

  lemma CallsSnoc(writes: seq<Write>, last: Write)
    ensures CallsOf(writes + [last]) == CallsOf(writes) + [last.call]
  {
  }

  lemma FirstMoves(calls: seq<CallId>, queue: seq<CallId>)
    requires queue != []
    ensures calls + queue == (calls + [queue[0]]) + queue[1..]
  {
  }

  lemma OrderSnoc(before: seq<Action>, a: Action, p: Pid)
    requires HandedTo(before, p) == CallsOf(WrittenBy(before, p)) + QueueOf(Run(before), p)
    ensures HandedTo(before + [a], p) == CallsOf(WrittenBy(before + [a], p)) + QueueOf(Run(before + [a]), p)
  {
    var w, writes := Run(before), WrittenBy(before, p);
    HandedSnoc(before, a, p);
    RunSnoc(before, a);
    if HandsOver(w, a, p) {
      HandsToProcess(w, a, p);
      QueueSection(w, a, p);
      Associative(CallsOf(writes), QueueOf(w, p), [a.call]);
    } else {
      QueueSection(w, a, p);
      if Writes(w, a, p) {
        CallsSnoc(writes, Write(QueueOf(w, p)[0], a.result));
        FirstMoves(CallsOf(writes), QueueOf(w, p));
      }
    }
  }

  /** Over every run the calls handed to a process are, in order, the ones it has written or tried to write and the
      ones in its queue, which never holds more than 100. */
  lemma {:induction false} WrittenInOrder(actions: seq<Action>, p: Pid)
    ensures HandedTo(actions, p) == CallsOf(WrittenBy(actions, p)) + QueueOf(Run(actions), p)
    ensures |QueueOf(Run(actions), p)| <= QUEUE_CAPACITY
  {
    if actions == [] {
      assert CallsOf([]) == [];
    } else {
      var before, a := actions[..|actions| - 1], actions[|actions| - 1];
      assert actions == before + [a];
      WrittenInOrder(before, p);
      OrderSnoc(before, a, p);
      if HandsOver(Run(before), a, p) {
        HandsToProcess(Run(before), a, p);
      }
      QueueSection(Run(before), a, p);
    }
  }

  /** A write takes out of the table its own call if it fails, and nothing else. */
  lemma WriteFailsOwn(actions: seq<Action>, p: Pid, result: WriteResult)
    requires Writes(Run(actions), WriterStep(p, result), p)
    ensures var w, w', c := Run(actions), Run(actions + [WriterStep(p, result)]), Run(actions).procs[p].queue[0];
            && w'.s.pending == (if result.Written? then w.s.pending else w.s.pending - {c})
            && (c in w.s.pending && !result.Written? ==> c in w'.mail && w'.mail[c] == Failure)
            && w'.log == w.log + if result.Written? then [] else [Failed(p, w.s.pending * {c}, false)]
  {
    RunSnoc(actions, WriterStep(p, result));
    assert Run(actions).log + [] == Run(actions).log;
  }

  // ---------------------------------------------------------------- broken writes

  predicate IsWriterStep(a: Action, p: Pid) {
    a.WriterStep? && a.p == p
  }

  predicate NoWriterStep(actions: seq<Action>, p: Pid) {
    forall i | 0 <= i < |actions| :: !IsWriterStep(actions[i], p)
  }

  /** A writer moves by its own sections only. */
  lemma WriterKept(w: World, a: Action, p: Pid)
    requires p < |w.procs| && !IsWriterStep(a, p)
    ensures p < |Step(w, a).procs| && Step(w, a).procs[p].writer == w.procs[p].writer
  {
  }

  lemma {:induction false} WriterStays(actions: seq<Action>, more: seq<Action>, p: Pid)
    requires p < |Run(actions).procs| && NoWriterStep(more, p)
    ensures p < |Run(actions + more).procs|
    ensures Run(actions + more).procs[p].writer == Run(actions).procs[p].writer
    decreases |more|
  {
    if more == [] {
      assert actions + more == actions;
    } else {
      var front, last := more[..|more| - 1], more[|more| - 1];
      WriterStays(actions, front, p);
      assert actions + more == (actions + front) + [last];
      RunSnoc(actions + front, last);
      WriterKept(Run(actions + front), last, p);
    }
  }

  predicate Breaks(writes: seq<Write>, k: nat) {
    k < |writes| && writes[k].result.Broken?
  }

  /** A process that is there writes on exactly if no write of its has broken, and the broken one was its last. */
  ghost predicate WritesUntilBroken(w: World, writes: seq<Write>, p: Pid) {
    && (p >= |w.procs| ==> writes == [])
    && (p < |w.procs| ==> (w.procs[p].writer.Writing? <==> forall k | 0 <= k < |writes| :: !Breaks(writes, k)))
    && (forall k | 0 <= k < |writes| && Breaks(writes, k) :: k == |writes| - 1)
  }

  lemma WriterSection(w: World, p: Pid, result: WriteResult)
    requires p < |w.procs|
    ensures var w' := Step(w, WriterStep(p, result));
            && p < |w'.procs|
            && (w'.procs[p].writer.Writing?
                <==> w.procs[p].writer.Writing? && !(Writes(w, WriterStep(p, result), p) && result.Broken?))
  {
  }

  lemma NewProcs(w: World, a: Action, p: Pid)
    requires p >= |w.procs| && p < |Step(w, a).procs|
    ensures Step(w, a).procs[p].writer.Writing?
  {
  }

  lemma ProcsStay(w: World, a: Action)
    ensures |w.procs| <= |Step(w, a).procs|
  {
  }

  lemma BrokenStep(w: World, a: Action, writes: seq<Write>, p: Pid)
    requires WritesUntilBroken(w, writes, p)
    ensures WritesUntilBroken(Step(w, a),
                              writes + if Writes(w, a, p) then [Write(w.procs[p].queue[0], a.result)] else [], p)
  {
    ProcsStay(w, a);
    if Writes(w, a, p) {
      WriterSection(w, p, a.result);
      var writes' := writes + [Write(w.procs[p].queue[0], a.result)];
      assert forall k | 0 <= k < |writes| :: writes'[k] == writes[k] && Breaks(writes', k) == Breaks(writes, k);
      assert Breaks(writes', |writes|) <==> a.result.Broken?;
    } else {
      assert writes + [] == writes;
      if p >= |w.procs| {
        if p < |Step(w, a).procs| {
          NewProcs(w, a, p);
        }
      } else if IsWriterStep(a, p) {
        WriterSection(w, p, a.result);
      } else {
        WriterKept(w, a, p);
      }
    }
  }

  /** So in every run a process whose write has broken writes nothing more. */
  lemma {:induction false} BrokenIsLast(actions: seq<Action>, p: Pid)
    ensures WritesUntilBroken(Run(actions), WrittenBy(actions, p), p)
  {
    if actions != [] {
      var before, a := actions[..|actions| - 1], actions[|actions| - 1];
      BrokenIsLast(before, p);
      BrokenStep(Run(before), a, WrittenBy(before, p), p);
    }
  }

  /** The next section of a loop whose write has broken fails exactly the calls in the table then. */
  lemma BrokenFailsTable(actions: seq<Action>, more: seq<Action>, p: Pid, result: WriteResult)
    requires Writes(Run(actions), WriterStep(p, Broken), p) && NoWriterStep(more, p)
    ensures var later := actions + [WriterStep(p, Broken)] + more;
            FailsTable(Run(later), Run(later + [WriterStep(p, result)]), p)
  {
    RunSnoc(actions, WriterStep(p, Broken));
    BrokenSection(Run(actions), p);
    WriterStays(actions + [WriterStep(p, Broken)], more, p);
    LoopEndFailsTable(actions + [WriterStep(p, Broken)] + more, p, result);
  }

  lemma BrokenSection(w: World, p: Pid)
    requires Writes(w, WriterStep(p, Broken), p)
    ensures var w' := Step(w, WriterStep(p, Broken)); p < |w'.procs| && w'.procs[p].writer.FailingAll?
  {
  }

  /** And the one after that closes its channel. */
  lemma BrokenCloses(actions: seq<Action>, more: seq<Action>, p: Pid, first: WriteResult, second: WriteResult)
    requires p < |Run(actions).procs| && Run(actions).procs[p].writer.FailingAll? && NoWriterStep(more, p)
    ensures var later := actions + [WriterStep(p, first)] + more + [WriterStep(p, second)];
            p < |Run(later).procs| && Run(later).procs[p].writer.Dead?
  {
    var failed := actions + [WriterStep(p, first)];
    RunSnoc(actions, WriterStep(p, first));
    assert p < |Run(failed).procs| && Run(failed).procs[p].writer.Closing?;
    WriterStays(failed, more, p);
    RunSnoc(failed + more, WriterStep(p, second));
  }

  // ---------------------------------------------------------------- sends to a closed channel

  predicate ToClosed(w: World, c: CallId, p: Pid) {
    && p < |w.procs| && w.procs[p].writer.Dead? && c < |w.calls|
    && w.calls[c] in {Cloned(p), Registered(p), SendFailed, Returned(NotRunning)}
  }

  lemma ToClosedStep(w: World, a: Action, c: CallId, p: Pid)
    requires ToClosed(w, c, p)
    ensures ToClosed(Step(w, a), c, p)
  {
  }

  /** Every call that still has to be sent to a process whose channel is closed returns `NotRunning`, if it returns. */
  lemma {:induction false} ClosedRefuses(actions: seq<Action>, more: seq<Action>, c: CallId, p: Pid)
    requires ToClosed(Run(actions), c, p)
    ensures ToClosed(Run(actions + more), c, p)
    decreases |more|
  {
    if more == [] {
      assert actions + more == actions;
    } else {
      var front, last := more[..|more| - 1], more[|more| - 1];
      ClosedRefuses(actions, front, c, p);
      assert actions + more == (actions + front) + [last];
      RunSnoc(actions + front, last);
      ToClosedStep(Run(actions + front), last, c, p);
    }
  }

  /** And it does return after three sections of its own. */
  lemma ClosedReturns(actions: seq<Action>, c: CallId, p: Pid)
    requires p < |Run(actions).procs| && Run(actions).procs[p].writer.Dead?
    requires c < |Run(actions).calls| && Run(actions).calls[c] == Cloned(p)
    ensures var w := Run(actions + [CallStep(c, false)] + [CallStep(c, false)] + [CallStep(c, false)]);
            c < |w.calls| && w.calls[c] == Returned(NotRunning) && c !in w.s.pending
  {
    var a1 := actions + [CallStep(c, false)];
    var a2 := a1 + [CallStep(c, false)];
    RunSnoc(actions, CallStep(c, false));
    RunSnoc(a1, CallStep(c, false));
    RunSnoc(a2, CallStep(c, false));
    assert Run(a1).calls[c] == Registered(p) && Run(a1).procs == Run(actions).procs;
    assert Run(a2).calls[c] == SendFailed;
    CallsHold(a2 + [CallStep(c, false)], c);
  }

  /** A refused call was sent to a process whose write had broken. */
  ghost predicate RefusedByBroken(actions: seq<Action>, c: CallId) {
    exists p, k :: Entered(c, p) in Run(actions).log && Breaks(WrittenBy(actions, p), k)
  }

  predicate Refused(w: World, c: CallId) {
    c < |w.calls| && (w.calls[c].SendFailed? || w.calls[c] == Returned(NotRunning))
  }

  lemma RefusalSection(w: World, a: Action, c: CallId)
    requires Refused(Step(w, a), c) && !Refused(w, c)
    ensures c < |w.calls| && w.calls[c].Registered?
            && w.calls[c].p < |w.procs| && w.procs[w.calls[c].p].writer.Dead?
  {
  }

  lemma LogGrows(w: World, a: Action, e: Event)
    requires e in w.log
    ensures e in Step(w, a).log
  {
  }

  lemma RefusedStays(actions: seq<Action>, a: Action, c: CallId)
    requires RefusedByBroken(actions, c)
    ensures RefusedByBroken(actions + [a], c)
  {
    var p, k :| Entered(c, p) in Run(actions).log && Breaks(WrittenBy(actions, p), k);
    RunSnoc(actions, a);
    LogGrows(Run(actions), a, Entered(c, p));
    HandedSnoc(actions, a, p);
    assert Breaks(WrittenBy(actions + [a], p), k);
  }

  lemma EnteredFor(actions: seq<Action>, c: CallId)
    requires c < |Run(actions).calls| && Run(actions).calls[c].Registered?
    ensures Entered(c, Run(actions).calls[c].p) in Run(actions).log
  {
    CallsHold(actions, c);
    StoryInLog(Run(actions).log, c);
    assert Story(Run(actions).log, c)[0] in Story(Run(actions).log, c);
  }

  /** Over every run `NotRunning` comes only from a process whose write has broken. */
  lemma {:induction false} NotRunningIsBroken(actions: seq<Action>, c: CallId)
    requires Refused(Run(actions), c)
    ensures RefusedByBroken(actions, c)
  {
    if actions != [] {
      var before, a := actions[..|actions| - 1], actions[|actions| - 1];
      assert actions == before + [a];
      if Refused(Run(before), c) {
        NotRunningIsBroken(before, c);
      } else {
        RefusalSection(Run(before), a, c);
        var p := Run(before).calls[c].p;
        EnteredFor(before, c);
        BrokenIsLast(before, p);
        var k :| 0 <= k < |WrittenBy(before, p)| && Breaks(WrittenBy(before, p), k);
        assert RefusedByBroken(before, c);
      }
      RefusedStays(before, a, c);
    }
  }

  lemma ReachRunning() returns (a6: seq<Action>)
    ensures Run(a6) == World(Shared(Some(0), Some(0), {}), Free, [Proc(Reading, Writing, [])], [], map[], map[], [])
  {
    var a4 := ReachHandshake();
    a6 := a4 + [StartStep(true)] + [StartStep(true)];
    RunSnoc(a4, StartStep(true));
    RunSnoc(a4 + [StartStep(true)], StartStep(true));
  }

  lemma ReachHanded() returns (b3: seq<Action>)
    ensures var w := Run(b3);
            w.s.tx == Some(0) && |w.calls| == 1 && w.procs == [Proc(Reading, Writing, [0])]
  {
    var a6 := ReachRunning();
    var b1 := a6 + [NewCall];
    var b2 := b1 + [CallStep(0, false)];
    b3 := b2 + [CallStep(0, false)];
    RunSnoc(a6, NewCall);
    assert Run(b1).calls == [Cloned(0)];
    RunSnoc(b1, CallStep(0, false));
    assert Run(b2).calls == [Registered(0)] && Run(b2).procs == [Proc(Reading, Writing, [])];
    RunSnoc(b2, CallStep(0, false));
    assert [] + [0] == [0];
  }

  lemma WriterLeaves(w: World, p: Pid, result: WriteResult)
    ensures var w' := Step(w, WriterStep(p, result));
            w'.s.tx == w.s.tx && w'.calls == w.calls && |w'.procs| == |w.procs|
  {
  }

  /** The call handed to process 0 breaks its pipe. */
  lemma ReachClosed() returns (b6: seq<Action>)
    ensures var w := Run(b6);
            w.s.tx == Some(0) && |w.calls| == 1 && |w.procs| == 1 && w.procs[0].writer.Dead?
  {
    var b3 := ReachHanded();
    var b4 := b3 + [WriterStep(0, Broken)];
    var b5 := b4 + [WriterStep(0, Written)];
    b6 := b5 + [WriterStep(0, Written)];
    RunSnoc(b3, WriterStep(0, Broken));
    RunSnoc(b4, WriterStep(0, Written));
    RunSnoc(b5, WriterStep(0, Written));
    BrokenSection(Run(b3), 0);
    BrokenCloses(b4, [], 0, Written, Written);
    assert b5 + [] == b5;
    WriterLeaves(Run(b3), 0, Broken);
    WriterLeaves(Run(b4), 0, Written);
    WriterLeaves(Run(b5), 0, Written);
  }

  /** A run that ends in `NotRunning`. */
  lemma CallIsRefused()
    ensures exists actions, c: CallId :: c < |Run(actions).calls| && Run(actions).calls[c] == Returned(NotRunning)
  {
    var b6 := ReachClosed();
    var b7 := b6 + [NewCall];
    RunSnoc(b6, NewCall);
    ClosedReturns(b7, 1, 0);
  }

  // ---------------------------------------------------------------- replies arrive

  /** A reply on its way reaches a caller that waits, even if its timer fires as the reply is there. */
  lemma MailArrives(actions: seq<Action>, c: CallId, expire: bool)
    requires c in Run(actions).mail && c < |Run(actions).calls| && Run(actions).calls[c].Sent?
    ensures var w := Run(actions + [Deliver(c)] + [CallStep(c, expire)]);
            c < |w.calls| && w.calls[c] == Returned(Replied(Run(actions).mail[c]))
  {
    RunSnoc(actions, Deliver(c));
    RunSnoc(actions + [Deliver(c)], CallStep(c, expire));
  }

  /** A response line answers the call in the table whose id it carries, whichever process it was sent to. */
  lemma LineAnswers(actions: seq<Action>, p: Pid, c: CallId, body: Body)
    requires p < |Run(actions).procs| && Run(actions).procs[p].reader.Reading?
    requires c in Run(actions).s.pending && c < |Run(actions).calls| && Run(actions).calls[c].Sent?
    ensures var w := Run(actions + [Line(p, c, body)] + [Deliver(c)] + [CallStep(c, false)]);
            c < |w.calls| && w.calls[c] == Returned(Replied(Answer(body)))
  {
    RunSnoc(actions, Line(p, c, body));
    MailArrives(actions + [Line(p, c, body)], c, false);
  }

  /** A line whose id is not in the table changes nothing. */
  lemma UnknownLine(actions: seq<Action>, p: Pid, c: CallId, body: Body)
    requires c !in Run(actions).s.pending
    ensures Run(actions + [Line(p, c, body)]) == Run(actions)
  {
    RunSnoc(actions, Line(p, c, body));
  }

  // ---------------------------------------------------------------- cleaning up and starting

  /** The cleanup at the end of a reader kills its own process and empties both slots exactly if the sender is still
      its own; otherwise it changes no slot. */
  lemma CleanupKills(actions: seq<Action>, p: Pid)
    requires p < |Run(actions).procs| && Run(actions).procs[p].reader.Exiting?
    ensures var w, w' := Run(actions), Run(actions + [ReaderStep(p)]);
            && w'.procs[..] == w.procs[p := w.procs[p].(reader := Gone)]
            && w'.s.pending == w.s.pending
            && if w.s.tx == Some(p)
               then w'.s.tx == None && w'.s.child == None && w'.log == w.log + ([Cleared(p, p)] + [Killed(p, p)])
               else w'.s == w.s && w'.log == w.log
  {
    OwnHolds(actions);
    RunSnoc(actions, ReaderStep(p));
    var w := Run(actions);
    if w.s.tx == Some(p) {
      assert w.s.child == Some(p);
      Associative(w.log, [Cleared(p, p)], [Killed(p, p)]);
    } else {
      assert w.log + [] + [] == w.log;
    }
  }

  function SectionsLeft(starter: Starter): nat {
    match starter
    case Free => 0
    case Locked => 6
    case Spawning => 5
    case TxSet(_) => 4
    case Handshake(_) => 3
    case Validating(_) => 2
    case Clearing(_) => 1
    case Stuck(_) => 0
  }

  /** A start that is not stuck gives the lock back after at most six sections, however they turn out. */
  lemma StartMovesOn(actions: seq<Action>, ok: bool)
    requires !Run(actions).starter.Free? && !Run(actions).starter.Stuck?
    ensures SectionsLeft(Run(actions + [StartStep(ok)]).starter) < SectionsLeft(Run(actions).starter)
  {
    OwnHolds(actions);
    RunSnoc(actions, StartStep(ok));
  }

  /** The process of a start past its spawn is the stored child, or was killed when its reader ended. */
  ghost predicate ChildOrKilled(w: World) {
    match w.starter
    case Handshake(p) => w.s.child == Some(p) || Killed(p, p) in w.log
    case Validating(p) => w.s.child == Some(p) || Killed(p, p) in w.log
    case Clearing(p) => w.s.child == Some(p) || Killed(p, p) in w.log
    case _ => true
  }

  lemma ChildReader(w: World, p: Pid)
    requires OwnInv(w) && ChildOrKilled(w) && p < |w.procs|
    ensures ChildOrKilled(StepReader(w, p))
  {
    var w' := StepReader(w, p);
    if w.procs[p].reader.Exiting? && w.s.tx == Some(p) && w.s.child == Some(p) {
      assert Killed(p, p) in w'.log;
    }
  }

  lemma ChildWriter(w: World, p: Pid, result: WriteResult)
    requires ChildOrKilled(w) && p < |w.procs|
    ensures ChildOrKilled(StepWriter(w, p, result))
  {
    WriterLogs(w, p, result);
    assert StepWriter(w, p, result).s.child == w.s.child;
  }

  lemma ChildCall(w: World, c: CallId, expire: bool)
    requires ChildOrKilled(w) && c < |w.calls|
    ensures ChildOrKilled(StepCall(w, c, expire))
  {
    assert StepCall(w, c, expire).s.child == w.s.child;
  }

  lemma ChildStep(w: World, a: Action)
    requires OwnInv(w) && ChildOrKilled(w)
    ensures ChildOrKilled(Step(w, a))
  {
    match a
    case ReaderStep(p) => if p < |w.procs| { ChildReader(w, p); }
    case WriterStep(p, result) => if p < |w.procs| { ChildWriter(w, p, result); }
    case CallStep(c, expire) => if c < |w.calls| { ChildCall(w, c, expire); }
    case _ =>
  }

  lemma {:induction false} ChildrenHold(actions: seq<Action>)
    ensures ChildOrKilled(Run(actions))
  {
    if actions != [] {
      OwnHolds(actions[..|actions| - 1]);
      ChildrenHold(actions[..|actions| - 1]);
      ChildStep(Run(actions[..|actions| - 1]), actions[|actions| - 1]);
    }
  }

  /** A start that fails its handshake empties the sender slot. */
  lemma FailedStartClears(actions: seq<Action>)
    requires Run(actions).starter.Validating?
    ensures var w, w' := Run(actions), Run(actions + [StartStep(false)]);
            && w'.starter == Clearing(w.starter.p) && w'.s == w.s.(tx := None)
            && w'.log == w.log + if w.s.tx.Some? then [Cleared(w.starter.p, w.starter.p)] else []
  {
    OwnHolds(actions);
    RunSnoc(actions, StartStep(false));
  }

  /** And when it gives the lock back its process has been killed, and no sender is stored. */
  lemma FailedStartKills(actions: seq<Action>, ok: bool)
    requires Run(actions).starter.Clearing?
    ensures var w, w' := Run(actions), Run(actions + [StartStep(ok)]);
            && w'.starter.Free? && w'.s.tx == None && Killed(w.starter.p, w.starter.p) in w'.log
  {
    OwnHolds(actions);
    ChildrenHold(actions);
    RunSnoc(actions, StartStep(ok));
    ClearingSection(Run(actions), ok);
  }

  lemma ClearingSection(w: World, ok: bool)
    requires SlotsInv(w) && ChildOrKilled(w) && w.starter.Clearing?
    ensures var w' := StepStarter(w, ok);
            && w'.starter.Free? && w'.s.tx == None && Killed(w.starter.p, w.starter.p) in w'.log
  {
  }

  /** One that succeeds gives the lock back and leaves the slots alone. */
  lemma StartSucceeds(actions: seq<Action>)
    requires Run(actions).starter.Validating?
    ensures Run(actions + [StartStep(true)]) == Run(actions).(starter := Free)
  {
    RunSnoc(actions, StartStep(true));
  }
}
