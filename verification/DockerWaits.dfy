/** When a long poll of DockerExec waits and what wakes it, and how the producer ends a session. */
module DockerWaits {
  import opened Bytes
  import opened Wrappers
  import opened DockerExec

  // ---------------------------------------------------------------- waiting

  /** Which readers asked to wait, in the order they arrived. */
  function Asked(actions: seq<Action>): seq<bool> {
    if actions == [] then []
    else
      var a := actions[|actions| - 1];
      Asked(actions[..|actions| - 1]) + if a.Arrive? then [a.wait] else []
  }

  predicate WaitsIn(w: World, r: nat) {
    r < |w.readers| && w.readers[r].Waiting?
  }

  /** Reader `r` has waited at some point of the run. */
  ghost predicate Waited(actions: seq<Action>, r: nat) {
    exists i :: 0 <= i <= |actions| && WaitsIn(Run(actions[..i]), r)
  }

  /** Some drain took nothing. */
  predicate EmptyDrain(w: World, got: nat) {
    got >= |w.drained| || w.drained[got] == []
  }

  /** What the state of a reader says about its past. */
  ghost predicate PastOf(w: World, r: nat, asked: bool, waited: bool)
    requires r < |w.readers|
  {
    match w.readers[r]
    case Arrived(wait) => wait == asked
    case Drained(got, wait) => wait == asked && got < |w.drained|
    case Waiting => asked && waited
    case Woken(_) => asked && waited
    case DrainedAgain(got, _) => asked && waited && got < |w.drained|
    case Returned(got, running, _, _, byDone) =>
      && got < |w.drained| && (asked && running && EmptyDrain(w, got) ==> waited && !byDone)
      && (byDone ==> asked && waited)
  }

  lemma PastSection(w: World, a: Action, r: nat, asked: bool, waited: bool)
    requires FinishInv(w) && r < |w.readers| && PastOf(w, r, asked, waited)
    ensures r < |Step(w, a).readers| && PastOf(Step(w, a), r, asked, waited || WaitsIn(Step(w, a), r))
  {
  }

  lemma NewReader(w: World, a: Action, r: nat)
    requires r < |Step(w, a).readers| && r >= |w.readers|
    ensures a.Arrive? && r == |w.readers| && Step(w, a).readers[r] == Arrived(a.wait)
  {
  }

  lemma ReadersStay(w: World, a: Action)
    ensures |Step(w, a).readers| == |w.readers| + if a.Arrive? then 1 else 0
  {
  }

  lemma WaitedSnoc(actions: seq<Action>, a: Action, r: nat)
    ensures Waited(actions + [a], r) <==> Waited(actions, r) || WaitsIn(Run(actions + [a]), r)
  {
    var all := actions + [a];
    assert all[..|all|] == all;
    if Waited(actions, r) {
      var i :| 0 <= i <= |actions| && WaitsIn(Run(actions[..i]), r);
      assert all[..i] == actions[..i];
    }
    if Waited(all, r) {
      var i :| 0 <= i <= |all| && WaitsIn(Run(all[..i]), r);
      if i <= |actions| {
        assert all[..i] == actions[..i];
      }
    }
  }

  ghost predicate PastsKnown(actions: seq<Action>) {
    && |Asked(actions)| == |Run(actions).readers|
    && forall r | 0 <= r < |Run(actions).readers| :: PastOf(Run(actions), r, Asked(actions)[r], Waited(actions, r))
  }

  lemma AskedSnoc(actions: seq<Action>, a: Action)
    ensures Asked(actions + [a]) == Asked(actions) + if a.Arrive? then [a.wait] else []
  {
    assert (actions + [a])[..|actions|] == actions;
  }

  lemma PastsStep(actions: seq<Action>, a: Action)
    requires PastsKnown(actions)
    ensures PastsKnown(actions + [a])
  {
    var w := Run(actions);
    RunSnoc(actions, a);
    AskedSnoc(actions, a);
    ReadersStay(w, a);
    FinishHolds(actions);
    forall r | 0 <= r < |Step(w, a).readers|
      ensures PastOf(Step(w, a), r, Asked(actions + [a])[r], Waited(actions + [a], r))
    {
      WaitedSnoc(actions, a, r);
      if r < |w.readers| {
        PastSection(w, a, r, Asked(actions)[r], Waited(actions, r));
      } else {
        NewReader(w, a, r);
      }
    }
  }

  lemma {:induction false} PastsHold(actions: seq<Action>)
    ensures PastsKnown(actions)
  {
    if actions != [] {
      var before, a := actions[..|actions| - 1], actions[|actions| - 1];
      assert actions == before + [a];
      PastsHold(before);
      PastsStep(before, a);
    }
  }

  /** Over every run: a reader that asked to wait and came back empty-handed from a running session has waited, and was
      not woken by the end. */
  lemma EmptyAnswerWaited(actions: seq<Action>, r: nat)
    requires r < |Run(actions).readers| && Run(actions).readers[r].Returned? && Run(actions).readers[r].running
    requires r < |Asked(actions)| && Asked(actions)[r]
    requires EmptyDrain(Run(actions), Run(actions).readers[r].got)
    ensures Waited(actions, r) && !Run(actions).readers[r].byDone
  {
    PastsHold(actions);
  }

  /** A reader waits only if it asked to. */
  lemma OnlyAskedWait(actions: seq<Action>, r: nat)
    requires WaitsIn(Run(actions), r)
    ensures r < |Asked(actions)| && Asked(actions)[r]
  {
    PastsHold(actions);
  }

  /** Behind its first drain a reader waits exactly if that took nothing, it asked to wait and the session runs;
      otherwise it reports what it took and how the session stands. */
  lemma WaitsIff(actions: seq<Action>, r: nat)
    requires r < |Run(actions).readers| && Run(actions).readers[r].Drained?
    ensures var w, w', reader := Run(actions), Run(actions + [ReaderStep(r)]), Run(actions).readers[r];
            && reader.got < |w.drained| && r < |Asked(actions)| && r < |w'.readers|
            && (w'.readers[r].Waiting? <==> w.drained[reader.got] == [] && Asked(actions)[r] && w.s.running)
            && (!w'.readers[r].Waiting? ==>
                  w'.readers[r] == Returned(reader.got, w.s.running, w.s.exitCode, w.s.err, false))
  {
    PastsHold(actions);
    RunSnoc(actions, ReaderStep(r));
    assert PastOf(Run(actions), r, Asked(actions)[r], Waited(actions, r));
  }

  // ---------------------------------------------------------------- waking

  lemma WokenSections(w: World, r: nat, byDone: bool)
    requires r < |w.readers| && w.readers[r] == Woken(byDone)
    ensures var w' := Step(Step(w, ReaderStep(r)), ReaderStep(r));
            && r < |w'.readers|
            && w'.readers[r] == Returned(|w.drained|, w.s.running, w.s.exitCode, w.s.err, byDone)
            && w'.drained == w.drained + [w.s.output] && w'.s.output == []
  {
  }

  /** A waiting reader can take the token, and then reports all the output there is. */
  lemma TokenWakes(actions: seq<Action>, r: nat)
    requires WaitsIn(Run(actions), r) && Run(actions).s.token
    ensures var w, w' := Run(actions), Run(actions + [WakeByToken(r)] + [ReaderStep(r)] + [ReaderStep(r)]);
            && r < |w'.readers|
            && w'.readers[r] == Returned(|w.drained|, w.s.running, w.s.exitCode, w.s.err, false)
            && w'.drained == w.drained + [w.s.output] && !w'.s.token
  {
    var woken := actions + [WakeByToken(r)];
    RunSnoc(actions, WakeByToken(r));
    RunSnoc(woken, ReaderStep(r));
    RunSnoc(woken + [ReaderStep(r)], ReaderStep(r));
    assert Run(woken) == Run(actions).(s := TakeToken(Run(actions).s),
                                       readers := Run(actions).readers[r := Woken(false)]);
    WokenSections(Run(woken), r, false);
  }

  /** When its timer fires it takes another look as well. */
  lemma TimerWakes(actions: seq<Action>, r: nat)
    requires WaitsIn(Run(actions), r)
    ensures var w, w' := Run(actions), Run(actions + [WakeByTimer(r)] + [ReaderStep(r)] + [ReaderStep(r)]);
            && r < |w'.readers|
            && w'.readers[r] == Returned(|w.drained|, w.s.running, w.s.exitCode, w.s.err, false)
            && w'.drained == w.drained + [w.s.output] && w'.s.token == w.s.token
  {
    var woken := actions + [WakeByTimer(r)];
    RunSnoc(actions, WakeByTimer(r));
    RunSnoc(woken, ReaderStep(r));
    RunSnoc(woken + [ReaderStep(r)], ReaderStep(r));
    assert Run(woken) == Run(actions).(readers := Run(actions).readers[r := Woken(false)]);
    WokenSections(Run(woken), r, false);
  }

  /** Without token and end only the timer wakes it. */
  lemma NothingElseWakes(actions: seq<Action>, a: Action, r: nat)
    requires WaitsIn(Run(actions), r)
    ensures var w, w' := Run(actions), Run(actions + [a]);
            !WaitsIn(w', r) ==> (a == WakeByToken(r) && w.s.token) || (a == WakeByDone(r) && w.s.finish.Closed?)
                                || a == WakeByTimer(r)
  {
    RunSnoc(actions, a);
    WaitingSection(Run(actions), a, r);
  }

  lemma WaitingSection(w: World, a: Action, r: nat)
    requires WaitsIn(w, r)
    ensures WaitsIn(Step(w, a), r) || (a == WakeByToken(r) && w.s.token) || (a == WakeByDone(r) && w.s.finish.Closed?)
            || a == WakeByTimer(r)
  {
  }

  /** Once the end is announced every waiting reader can report it, with the final verdict. */
  lemma DoneWakes(actions: seq<Action>, r: nat)
    requires WaitsIn(Run(actions), r) && Run(actions).s.finish.Closed?
    ensures var w, w' := Run(actions), Run(actions + [WakeByDone(r)] + [ReaderStep(r)] + [ReaderStep(r)]);
            && r < |w'.readers|
            && w'.readers[r] == Returned(|w.drained|, false, w.s.exitCode, w.s.err, true)
            && w'.drained == w.drained + [w.s.output]
  {
    var woken := actions + [WakeByDone(r)];
    FinishHolds(actions);
    RunSnoc(actions, WakeByDone(r));
    RunSnoc(woken, ReaderStep(r));
    RunSnoc(woken + [ReaderStep(r)], ReaderStep(r));
    assert Run(woken) == Run(actions).(readers := Run(actions).readers[r := Woken(true)]);
    WokenSections(Run(woken), r, true);
  }

  // ---------------------------------------------------------------- the producer

  /** The producer has met an error or the end, and reads no more. */
  predicate Ending(w: World) {
    w.producer.Exited? || w.producer.Finishing? || (w.producer.Notifying? && w.producer.last)
  }

  lemma EndingSection(w: World, a: Action)
    requires Ending(w)
    ensures Ending(Step(w, a)) && !Appends(w, a)
  {
  }

  /** Behind an error nothing is appended any more, in any continuation. */
  lemma {:induction false} EndingAppendsNothing(actions: seq<Action>, more: seq<Action>)
    requires Ending(Run(actions))
    ensures Ending(Run(actions + more)) && Stream(actions + more) == Stream(actions)
    decreases |more|
  {
    if more == [] {
      assert actions + more == actions;
    } else {
      var front, last := more[..|more| - 1], more[|more| - 1];
      EndingAppendsNothing(actions, front);
      assert actions + more == (actions + front) + [last];
      RunSnoc(actions + front, last);
      EndingSection(Run(actions + front), last);
      assert (actions + more)[..|actions + more| - 1] == actions + front;
      assert Stream(actions + front) + [] == Stream(actions + front);
    }
  }

  /** A read that brings bytes and an error is the last, one that brings bytes alone is not. */
  lemma LastRead(actions: seq<Action>, data: seq<Byte>, last: bool, more: seq<Action>)
    requires Run(actions).producer.Reading? && data != []
    ensures var read := actions + [Produce(data, last)];
            && Stream(read) == Stream(actions) + data
            && (last ==> Stream(read + more) == Stream(read))
            && Run(read + [NotifyStep]).s.token
            && Run(read + [NotifyStep]).producer == (if last then Finishing else Reading)
  {
    var read := actions + [Produce(data, last)];
    RunSnoc(actions, Produce(data, last));
    assert read[..|actions|] == actions;
    RunSnoc(read, NotifyStep);
    if last {
      EndingAppendsNothing(read, more);
    }
  }

  /** A read that brings an error alone leads to the end as well. */
  lemma EndRead(actions: seq<Action>, more: seq<Action>)
    requires Run(actions).producer.Reading?
    ensures Run(actions + [ProduceEnd]).producer.Finishing?
    ensures Stream(actions + [ProduceEnd] + more) == Stream(actions)
  {
    RunSnoc(actions, ProduceEnd);
    EndingAppendsNothing(actions + [ProduceEnd], more);
    assert (actions + [ProduceEnd])[..|actions|] == actions;
    assert Stream(actions) + [] == Stream(actions);
  }

  /** The end of the producer gives the session its verdict, unless a stop came first, and then it is announced. */
  lemma ProducerFinishes(actions: seq<Action>, code: Option<int>, err: string)
    requires Run(actions).producer.Finishing?
    ensures var w, w' := Run(actions), Run(actions + [FinishStep(code, err)]);
            && w'.producer.Exited? && !w'.s.running
            && (if w.s.running then w'.s.exitCode == code && w'.s.err == err
                else w'.s.exitCode == w.s.exitCode && w'.s.err == w.s.err)
    ensures Run(actions + [FinishStep(code, err)] + [CloseDone]).s.finish.Closed?
  {
    FinishHolds(actions);
    RunSnoc(actions, FinishStep(code, err));
    FinishHolds(actions + [FinishStep(code, err)]);
    RunSnoc(actions + [FinishStep(code, err)], CloseDone);
  }

  ghost predicate ExitedIsOver(w: World) {
    w.producer.Exited? ==> !w.s.running
  }

  lemma ExitSection(w: World, a: Action)
    requires ExitedIsOver(w) && FinishInv(w)
    ensures ExitedIsOver(Step(w, a))
  {
  }

  /** No producer leaves a running session behind. */
  lemma {:induction false} ExitEndsSession(actions: seq<Action>)
    ensures ExitedIsOver(Run(actions))
  {
    if actions != [] {
      var n := |actions| - 1;
      ExitEndsSession(actions[..n]);
      FinishHolds(actions[..n]);
      ExitSection(Run(actions[..n]), actions[n]);
    }
  }

  /** A stop ends a running session without an exit code, and changes nothing in one that is over. */
  lemma StopEnds(actions: seq<Action>)
    ensures var w, w' := Run(actions), Run(actions + [Stop]);
            && !w'.s.running && w'.producer == w.producer && w'.readers == w.readers
            && (if w.s.running then w'.s.exitCode == None && w'.s.err == "" else w'.s == w.s)
  {
    FinishHolds(actions);
    RunSnoc(actions, Stop);
  }
}
