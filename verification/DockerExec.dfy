/** A container shell session: one producer fills a bounded tail buffer, long-polling readers drain it,
    a notification channel of capacity one wakes them, and the session finishes once. */
module DockerExec {
  import opened Bytes
  import opened Wrappers

  const MAX_OUTPUT := 0x40_0000 // 4 MiB

  /** How far the end of the session has come: not at all, its verdict recorded, the done channel closed. */
  datatype Finish = Open | StateSet | Closed

  /** The shared fields; `token` is the one in the notification channel. */
  datatype Session = Session(output: seq<Byte>, token: bool, running: bool, exitCode: Option<int>, err: string,
                             finish: Finish)

  const FRESH := Session([], false, true, None, "", Open)

  /** The outputMu section of appendOutput: the last 4 MiB of what was there and the data. */
  function AppendTo(s: Session, data: seq<Byte>): Session {
    s.(output := Tail(s.output + data, MAX_OUTPUT))
  }

  function LeaveToken(s: Session): Session {
    s.(token := true)
  }

  function TakeToken(s: Session): Session {
    s.(token := false)
  }

  /** The outputMu section of snapshot. */
  function DrainFrom(s: Session): (Session, seq<Byte>) {
    (s.(output := []), s.output)
  }

  /** The stateMu section of finishSession, entered through sync.Once. */
  function FinishOnce(s: Session, code: Option<int>, err: string): Session {
    if s.finish.Open? then s.(running := false, exitCode := code, err := err, finish := StateSet) else s
  }

  /** The end of finishSession, inside the same sync.Once. */
  function CloseDoneOnce(s: Session): Session {
    if s.finish.StateSet? then s.(finish := Closed) else s
  }

  /** The session's fields; each method is one critical section or channel operation. */
  class DockerExecSession {
    var output: seq<Byte>
    var notify: bool
    var running: bool
    var exitCode: Option<int>
    var readErr: string
    var finished: bool        // finish.Do has been entered
    var done: bool            // the done channel is closed

    ghost function Shared(): Session
      reads this
    {
      Session(output, notify, running, exitCode, readErr,
              if !finished then Open else if !done then StateSet else Closed)
    }

    constructor ()
      ensures Shared() == FRESH
    {
      output, notify, running, exitCode, readErr, finished, done := [], false, true, None, "", false, false;
    }

    method Append(data: seq<Byte>)
      modifies this`output
      ensures Shared() == AppendTo(old(Shared()), data)
    {
      if |data| >= MAX_OUTPUT {
        output := [];
        output := output + data[|data| - MAX_OUTPUT..];
      } else {
        var overflow := |output| + |data| - MAX_OUTPUT;
        if overflow > 0 {
          // Buffer.Next discards at most what is there.
          output := output[if overflow < |output| then overflow else |output|..];
        }
        output := output + data;
      }
    }

    /** The non-blocking send at the end of appendOutput. */
    method Notify()
      modifies this`notify
      ensures Shared() == LeaveToken(old(Shared()))
    {
      if !notify {
        notify := true;
      }
    }

    /** A receive from the notification channel, if it is ready. */
    method ReceiveToken() returns (received: bool)
      modifies this`notify
      ensures Shared() == TakeToken(old(Shared())) && received == old(notify)
    {
      received := notify;
      notify := false;
    }

    method Drain() returns (data: seq<Byte>)
      modifies this`output
      ensures (Shared(), data) == DrainFrom(old(Shared()))
    {
      data := output;
      output := [];
    }

    method FinishState(code: Option<int>, err: string) returns (first: bool)
      modifies this`running, this`exitCode, this`readErr, this`finished
      requires !finished ==> !done
      ensures Shared() == FinishOnce(old(Shared()), code, err) && first == old(Shared()).finish.Open?
    {
      first := !finished;
      if first {
        finished := true;
        running := false;
        exitCode := code;
        readErr := err;
      }
    }

    /** Only the first finisher gets here. */
    method CloseDone()
      requires finished && !done
      modifies this`done
      ensures Shared() == CloseDoneOnce(old(Shared()))
    {
      done := true;
    }
  }

  /** The producer goroutine, by what it does next. */
  datatype Producer = Reading | Notifying(last: bool) | Finishing | Exited

  /** A long-polling reader. `got` counts the drains of the whole session when this reader made its own. */
  datatype Reader =
    | Arrived(wait: bool)
    | Drained(got: nat, wait: bool)  // first snapshot: output taken, state not read yet
    | Waiting
    | Woken(byDone: bool)
    | DrainedAgain(got: nat, byDone: bool)
    | Returned(got: nat, running: bool, exitCode: Option<int>, err: string, byDone: bool)

  /** Shared fields, goroutines, and the history: `windows` holds what was appended between consecutive
      drains, `current` what was appended since the last one, `drained` what the drains took. */
  datatype World = World(
    s: Session, producer: Producer, readers: seq<Reader>,
    windows: seq<seq<Byte>>, current: seq<Byte>, drained: seq<seq<Byte>>)

  datatype Action =
    | Produce(data: seq<Byte>, last: bool)     // a read returned bytes; `last` if also an error
    | ProduceEnd                               // a read returned only an error
    | NotifyStep
    | FinishStep(code: Option<int>, err: string)
    | Stop                                     // by the idle reaper or by a close
    | CloseDone
    | Arrive(wait: bool)
    | WakeByToken(r: nat)
    | WakeByDone(r: nat)
    | WakeByTimer(r: nat)
    | ReaderStep(r: nat)

  const INIT := World(FRESH, Reading, [], [], [], [])

  function DrainInto(w: World, r: nat, reader: Reader): World
    requires r < |w.readers|
  {
    var (s, data) := DrainFrom(w.s);
    w.(s := s, readers := w.readers[r := reader],
       windows := w.windows + [w.current], current := [], drained := w.drained + [data])
  }

  function Step(w: World, a: Action): World {
    match a
    case Produce(data, last) =>
      if w.producer.Reading? && data != []
      then w.(s := AppendTo(w.s, data), current := w.current + data, producer := Notifying(last))
      else w
    case ProduceEnd => if w.producer.Reading? then w.(producer := Finishing) else w
    case NotifyStep =>
      if w.producer.Notifying?
      then w.(s := LeaveToken(w.s), producer := if w.producer.last then Finishing else Reading)
      else w
    case FinishStep(code, err) =>
      if w.producer.Finishing? then w.(s := FinishOnce(w.s, code, err), producer := Exited) else w
    case Stop => w.(s := FinishOnce(w.s, None, ""))
    case CloseDone => w.(s := CloseDoneOnce(w.s))
    case Arrive(wait) => w.(readers := w.readers + [Arrived(wait)])
    case WakeByToken(r) =>
      if r < |w.readers| && w.readers[r].Waiting? && w.s.token
      then w.(s := TakeToken(w.s), readers := w.readers[r := Woken(false)]) else w
    case WakeByDone(r) =>
      if r < |w.readers| && w.readers[r].Waiting? && w.s.finish.Closed?
      then w.(readers := w.readers[r := Woken(true)]) else w
    case WakeByTimer(r) =>
      if r < |w.readers| && w.readers[r].Waiting? then w.(readers := w.readers[r := Woken(false)]) else w
    case ReaderStep(r) => if r < |w.readers| then StepReader(w, r) else w
  }

  function StepReader(w: World, r: nat): World
    requires r < |w.readers|
  {
    match w.readers[r]
    case Arrived(wait) => DrainInto(w, r, Drained(|w.drained|, wait))
    case Drained(got, wait) =>
      if (got < |w.drained| && w.drained[got] != []) || !w.s.running || !wait
      then w.(readers := w.readers[r := Returned(got, w.s.running, w.s.exitCode, w.s.err, false)])
      else w.(readers := w.readers[r := Waiting])
    case Waiting => w
    case Woken(byDone) => DrainInto(w, r, DrainedAgain(|w.drained|, byDone))
    case DrainedAgain(got, byDone) =>
      w.(readers := w.readers[r := Returned(got, w.s.running, w.s.exitCode, w.s.err, byDone)])
    case Returned(_, _, _, _, _) => w
  }

  function Run(actions: seq<Action>): World {
    if actions == [] then INIT
    else Step(Run(actions[..|actions| - 1]), actions[|actions| - 1])
  }

  lemma RunSnoc(actions: seq<Action>, a: Action)
    ensures Run(actions + [a]) == Step(Run(actions), a)
  {
    assert (actions + [a])[..|actions|] == actions;
  }

  function Taken(windows: seq<seq<Byte>>): (r: seq<seq<Byte>>)
    ensures |r| == |windows|
  {
    seq(|windows|, i requires 0 <= i < |windows| => Tail(windows[i], MAX_OUTPUT))
  }

  ghost predicate BufferInv(w: World) {
    w.s.output == Tail(w.current, MAX_OUTPUT) && w.drained == Taken(w.windows)
  }

  /** Whether the reader's next step drains the buffer. */
  predicate Drains(w: World, a: Action) {
    a.ReaderStep? && a.r < |w.readers| && (w.readers[a.r].Arrived? || w.readers[a.r].Woken?)
  }

  predicate Appends(w: World, a: Action) {
    a.Produce? && a.data != [] && w.producer.Reading?
  }

  lemma DrainStep(w: World, a: Action)
    requires Drains(w, a)
    ensures var w' := Step(w, a);
            && w'.s.output == [] && w'.current == []
            && w'.windows == w.windows + [w.current] && w'.drained == w.drained + [w.s.output]
  {
  }

  lemma AppendStep(w: World, a: Action)
    requires Appends(w, a)
    ensures var w' := Step(w, a);
            && w'.s.output == Tail(w.s.output + a.data, MAX_OUTPUT) && w'.current == w.current + a.data
            && w'.windows == w.windows && w'.drained == w.drained
  {
  }

  lemma OtherStep(w: World, a: Action)
    requires !Drains(w, a) && !Appends(w, a)
    ensures var w' := Step(w, a);
            w'.s.output == w.s.output && w'.current == w.current && w'.windows == w.windows && w'.drained == w.drained
  {
  }

  lemma BufferStep(w: World, a: Action)
    requires BufferInv(w)
    ensures BufferInv(Step(w, a))
  {
    if Drains(w, a) {
      DrainStep(w, a);
      assert Taken(w.windows + [w.current]) == Taken(w.windows) + [Tail(w.current, MAX_OUTPUT)];
    } else if Appends(w, a) {
      AppendStep(w, a);
      TailOfTail(w.current, a.data, MAX_OUTPUT);
    } else {
      OtherStep(w, a);
    }
  }

  lemma {:induction false} BufferHolds(actions: seq<Action>)
    ensures BufferInv(Run(actions))
  {
    if actions != [] {
      BufferHolds(actions[..|actions| - 1]);
      BufferStep(Run(actions[..|actions| - 1]), actions[|actions| - 1]);
    }
  }

  /** The bytes the producer appended in a run. */
  function Stream(actions: seq<Action>): seq<Byte> {
    if actions == [] then []
    else
      var before := actions[..|actions| - 1];
      var a := actions[|actions| - 1];
      Stream(before) + if Appends(Run(before), a) then a.data else []
  }

  lemma WindowsStep(w: World, a: Action)
    ensures Flatten(Step(w, a).windows) + Step(w, a).current
            == Flatten(w.windows) + w.current + if Appends(w, a) then a.data else []
  {
    var before := Flatten(w.windows) + w.current;
    if Drains(w, a) {
      DrainStep(w, a);
      FlattenSnoc(w.windows, w.current);
      assert before + [] == before;
    } else if Appends(w, a) {
      AppendStep(w, a);
      assert before + a.data == Flatten(w.windows) + (w.current + a.data);
    } else {
      OtherStep(w, a);
      assert before + [] == before;
    }
  }

  lemma {:induction false} WindowsCoverStream(actions: seq<Action>)
    ensures Stream(actions) == Flatten(Run(actions).windows) + Run(actions).current
  {
    if actions != [] {
      var n := |actions| - 1;
      WindowsCoverStream(actions[..n]);
      WindowsStep(Run(actions[..n]), actions[n]);
    }
  }

  /** The appended stream splits into one window per drain and an open one; each drain took exactly the last
      4 MiB at most of its window, and the buffer holds that much of the open window. */
  lemma BufferIsTailOfWindow(actions: seq<Action>)
    ensures var w := Run(actions);
            && Stream(actions) == Flatten(w.windows) + w.current
            && w.s.output == Tail(w.current, MAX_OUTPUT)
            && |w.drained| == |w.windows|
            && forall k | 0 <= k < |w.drained| :: w.drained[k] == Tail(w.windows[k], MAX_OUTPUT)
  {
    BufferHolds(actions);
    WindowsCoverStream(actions);
  }

  lemma {:induction false} TakenLength(windows: seq<seq<Byte>>)
    ensures |Flatten(Taken(windows))| <= |Flatten(windows)|
    ensures |Flatten(Taken(windows))| == |Flatten(windows)| <==>
            forall k | 0 <= k < |windows| :: |windows[k]| <= MAX_OUTPUT
    ensures (forall k | 0 <= k < |windows| :: |windows[k]| <= MAX_OUTPUT) ==> Taken(windows) == windows
  {
    if windows != [] {
      var n := |windows| - 1;
      TakenLength(windows[..n]);
      assert Taken(windows)[..n] == Taken(windows[..n]);
      assert forall k | 0 <= k < n :: windows[..n][k] == windows[k];
    }
  }

  /** Delivered bytes plus buffer are the whole stream exactly when no window overflowed. */
  lemma LosslessIffNoOverflow(actions: seq<Action>)
    ensures var w := Run(actions);
            Flatten(w.drained) + w.s.output == Stream(actions)
            <==> |w.current| <= MAX_OUTPUT && forall k | 0 <= k < |w.windows| :: |w.windows[k]| <= MAX_OUTPUT
  {
    var w := Run(actions);
    BufferHolds(actions);
    WindowsCoverStream(actions);
    TakenLength(w.windows);
  }

  ghost predicate Holds(r: Reader, k: nat) {
    (r.Drained? || r.DrainedAgain? || r.Returned?) && r.got == k
  }

  ghost predicate HandsInv(w: World) {
    && (forall r | 0 <= r < |w.readers| ::
          w.readers[r].Drained? || w.readers[r].DrainedAgain? || w.readers[r].Returned? ==>
            w.readers[r].got < |w.drained|)
    && (forall k | 0 <= k < |w.drained| && w.drained[k] != [] ::
          exists r | 0 <= r < |w.readers| :: Holds(w.readers[r], k))
    && (forall k, q, r | 0 <= q < r < |w.readers| && Holds(w.readers[q], k) :: !Holds(w.readers[r], k))
  }

  lemma HandsUntouched(w: World, w': World)
    requires HandsInv(w) && w'.drained == w.drained && |w.readers| <= |w'.readers|
    requires forall r | 0 <= r < |w.readers| :: w'.readers[r] == w.readers[r]
                                                || (forall k :: Holds(w'.readers[r], k) <==> Holds(w.readers[r], k))
    requires forall r | |w.readers| <= r < |w'.readers| :: w'.readers[r].Arrived?
    ensures HandsInv(w')
  {
    forall k | 0 <= k < |w'.drained| && w'.drained[k] != []
      ensures exists r | 0 <= r < |w'.readers| :: Holds(w'.readers[r], k)
    {
      var r :| 0 <= r < |w.readers| && Holds(w.readers[r], k);
      assert Holds(w'.readers[r], k);
    }
    forall r | && 0 <= r < |w'.readers|
               && (w'.readers[r].Drained? || w'.readers[r].DrainedAgain? || w'.readers[r].Returned?)
      ensures w'.readers[r].got < |w'.drained|
    {
      assert Holds(w'.readers[r], w'.readers[r].got);
      assert Holds(w.readers[r], w'.readers[r].got);
    }
  }

  lemma HandsDrain(w: World, r: nat, reader: Reader)
    requires HandsInv(w) && r < |w.readers| && (w.readers[r].Arrived? || w.readers[r].Woken?)
    requires reader.Drained? || reader.DrainedAgain?
    requires reader.got == |w.drained|
    ensures HandsInv(DrainInto(w, r, reader))
  {
    var w' := DrainInto(w, r, reader);
    forall k | 0 <= k < |w'.drained| && w'.drained[k] != []
      ensures exists q | 0 <= q < |w'.readers| :: Holds(w'.readers[q], k)
    {
      if k < |w.drained| {
        assert w'.drained[k] == w.drained[k];
        var q :| 0 <= q < |w.readers| && Holds(w.readers[q], k);
        assert Holds(w'.readers[q], k);
      } else {
        assert Holds(w'.readers[r], k);
      }
    }
  }

  /** A reader that goes waiting took nothing. */
  lemma HandsWait(w: World, r: nat)
    requires HandsInv(w) && r < |w.readers|
    requires w.readers[r].Drained? && w.drained[w.readers[r].got] == []
    ensures HandsInv(w.(readers := w.readers[r := Waiting]))
  {
    var w' := w.(readers := w.readers[r := Waiting]);
    forall k | 0 <= k < |w'.drained| && w'.drained[k] != []
      ensures exists q | 0 <= q < |w'.readers| :: Holds(w'.readers[q], k)
    {
      var q :| 0 <= q < |w.readers| && Holds(w.readers[q], k);
      assert Holds(w'.readers[q], k);
    }
  }

  lemma HandsStep(w: World, a: Action)
    requires HandsInv(w)
    ensures HandsInv(Step(w, a))
  {
    var w' := Step(w, a);
    if a.ReaderStep? && a.r < |w.readers| {
      match w.readers[a.r]
      case Arrived(wait) => HandsDrain(w, a.r, Drained(|w.drained|, wait));
      case Woken(byDone) => HandsDrain(w, a.r, DrainedAgain(|w.drained|, byDone));
      case Drained(got, wait) =>
        if w'.readers[a.r] == Waiting { HandsWait(w, a.r); } else { HandsUntouched(w, w'); }
      case _ => HandsUntouched(w, w');
    } else {
      HandsUntouched(w, w');
    }
  }

  lemma {:induction false} HandsHold(actions: seq<Action>)
    ensures HandsInv(Run(actions))
  {
    if actions != [] {
      var n := |actions| - 1;
      HandsHold(actions[..n]);
      HandsStep(Run(actions[..n]), actions[n]);
    }
  }

  /** Everything drained is in the hands of exactly one reader, who returns it or already has. */
  lemma DrainedBytesReachOneReader(actions: seq<Action>, k: nat)
    requires k < |Run(actions).drained| && Run(actions).drained[k] != []
    ensures var rs := Run(actions).readers;
            exists r | 0 <= r < |rs| :: Holds(rs[r], k) && forall q | 0 <= q < |rs| && q != r :: !Holds(rs[q], k)
  {
    HandsHold(actions);
    var rs := Run(actions).readers;
    var r :| 0 <= r < |rs| && Holds(rs[r], k);
    assert forall q | 0 <= q < |rs| && q != r :: !Holds(rs[q], k);
  }

  ghost predicate SomeoneWoken(w: World) {
    exists r | 0 <= r < |w.readers| :: w.readers[r].Woken?
  }

  ghost predicate WakeInv(w: World) {
    w.s.output != [] ==> w.s.token || w.producer.Notifying? || SomeoneWoken(w)
  }

  lemma WakeStep(w: World, a: Action)
    requires WakeInv(w)
    ensures WakeInv(Step(w, a))
  {
    var w' := Step(w, a);
    if SomeoneWoken(w) {
      var r :| 0 <= r < |w.readers| && w.readers[r].Woken?;
      if r < |w'.readers| && w'.s.output != [] {
        assert w'.readers[r].Woken?;
      }
    }
    if a.WakeByToken? && w' != w {
      assert w'.readers[a.r].Woken?;
    }
  }

  /** No lost wakeup: while there is output, a token is there, or the producer is about to leave one, or a
      woken reader is about to drain. So when all readers wait and the producer is not between append and
      notify, a token is there for them. */
  lemma {:induction false} NoLostWakeup(actions: seq<Action>)
    ensures WakeInv(Run(actions))
  {
    if actions != [] {
      var n := |actions| - 1;
      NoLostWakeup(actions[..n]);
      WakeStep(Run(actions[..n]), actions[n]);
    }
  }

  ghost predicate FinishInv(w: World) {
    && (w.s.running <==> w.s.finish.Open?)
    && (w.s.running ==> w.s.exitCode == None && w.s.err == "")
    && forall r | 0 <= r < |w.readers| ::
         match w.readers[r]
         case Woken(byDone) => byDone ==> !w.s.running
         case DrainedAgain(_, byDone) => byDone ==> !w.s.running
         case Returned(_, running, code, err, byDone) =>
           (byDone ==> !running) && (!running ==> !w.s.running && code == w.s.exitCode && err == w.s.err)
         case _ => true
  }

  lemma FinishInvStep(w: World, a: Action)
    requires FinishInv(w)
    ensures FinishInv(Step(w, a))
    ensures var s, s' := w.s, Step(w, a).s;
            !s.running ==> !s'.running && s'.exitCode == s.exitCode && s'.err == s.err
  {
  }

  lemma {:induction false} FinishHolds(actions: seq<Action>)
    ensures FinishInv(Run(actions))
  {
    if actions != [] {
      var n := |actions| - 1;
      FinishHolds(actions[..n]);
      FinishInvStep(Run(actions[..n]), actions[n]);
    }
  }

  /** Once the session is over its verdict never changes again. */
  lemma {:induction false} VerdictFrozen(actions: seq<Action>, more: seq<Action>)
    requires !Run(actions).s.running
    ensures var w, w' := Run(actions), Run(actions + more);
            !w'.s.running && w'.s.exitCode == w.s.exitCode && w'.s.err == w.s.err
    decreases |more|
  {
    if more == [] {
      assert actions + more == actions;
    } else {
      var n := |more| - 1;
      VerdictFrozen(actions, more[..n]);
      assert actions + more == (actions + more[..n]) + [more[n]];
      RunSnoc(actions + more[..n], more[n]);
      FinishHolds(actions + more[..n]);
      FinishInvStep(Run(actions + more[..n]), more[n]);
    }
  }

  /** A reader woken by the end of the session reports it as over, and every reader that reports it as over
      reports the final verdict. */
  lemma ReportsFinalVerdict(actions: seq<Action>, r: nat)
    requires r < |Run(actions).readers| && Run(actions).readers[r].Returned?
    requires var reader := Run(actions).readers[r]; reader.byDone || !reader.running
    ensures var w, reader := Run(actions), Run(actions).readers[r];
            !reader.running && !w.s.running && reader.exitCode == w.s.exitCode && reader.err == w.s.err
  {
    FinishHolds(actions);
  }

  /** Exactly when output is left, at a report of the end as at any other time: when something was appended since
      the last drain. */
  lemma OutputLeftIff(actions: seq<Action>)
    ensures Run(actions).s.output != [] <==> Run(actions).current != []
  {
    BufferHolds(actions);
  }

  lemma ArriveAndDrain(wait: bool)
    ensures Run([Arrive(wait)] + [ReaderStep(0)]) == World(FRESH, Reading, [Drained(0, wait)], [[]], [], [[]])
  {
    RunSnoc([], Arrive(wait));
    assert [] + [Arrive(wait)] == [Arrive(wait)];
    assert Run([Arrive(wait)]) == INIT.(readers := [Arrived(wait)]);
    RunSnoc([Arrive(wait)], ReaderStep(0));
    assert INIT.(readers := [Arrived(wait)]).readers[0 := Drained(0, wait)] == [Drained(0, wait)];
  }

  lemma ByteAndStop(w: World, b: Byte)
    requires w.s == FRESH && w.producer.Reading?
    ensures var w' := Step(Step(w, Produce([b], true)), Stop);
            w'.s == Session([b], false, false, None, "", StateSet) && w'.readers == w.readers && w'.drained == w.drained
  {
    assert [] + [b] == [b];
  }

  lemma ReportOver(w: World, wait: bool)
    requires w.readers == [Drained(0, wait)] && !w.s.running
    ensures var w' := Step(w, ReaderStep(0));
            w'.s == w.s && w'.readers == [Returned(0, false, w.s.exitCode, w.s.err, false)]
  {
    assert w.readers[0] == Drained(0, wait);
  }

  /** A report that the session is over may leave output behind: the state is read after the drain. */
  lemma OverMayLeaveOutput(b: Byte)
    ensures exists actions ::
      var w := Run(actions);
      |w.readers| == 1 && w.readers[0].Returned? && !w.readers[0].running && w.s.output == [b]
  {
    var drained := [Arrive(true)] + [ReaderStep(0)];
    ArriveAndDrain(true);
    var stopped := drained + [Produce([b], true)] + [Stop];
    RunSnoc(drained, Produce([b], true));
    RunSnoc(drained + [Produce([b], true)], Stop);
    ByteAndStop(Run(drained), b);
    var over := stopped + [ReaderStep(0)];
    RunSnoc(stopped, ReaderStep(0));
    ReportOver(Run(stopped), true);
    assert Run(over).readers == [Returned(0, false, None, "", false)] && Run(over).s.output == [b];
  }
}
