/** The RPC client of the Go sidecar: a table of pending replies shared by all callers and all process
    generations, a sender slot and a child slot that a lazy restart refills, and loops that clean up
    after a process that died. */
module GoSidecarRpc {
  import opened Wrappers

  /** Calls and processes are numbered in the order they are made; a call's number is its fresh id. */
  type CallId = nat
  type Pid = nat
  type Body = string

  const QUEUE_CAPACITY := 100

  datatype Reply = Answer(body: Body) | Failure

  /** The three shared slots. A channel is identified by the process it leads to. */
  datatype Shared = Shared(tx: Option<Pid>, child: Option<Pid>, pending: set<CallId>)

  function SetSender(s: Shared, tx: Option<Pid>): Shared {
    s.(tx := tx)
  }

  /** Storing a child drops, and so kills, the one stored before: the second result. */
  function StoreChildIn(s: Shared, p: Pid): (Shared, Option<Pid>) {
    (s.(child := Some(p)), s.child)
  }

  function Enter(s: Shared, c: CallId): Shared {
    s.(pending := s.pending + {c})
  }

  /** Takes ids out of the table; the second result are those that were there. */
  function TakeFrom(s: Shared, ids: set<CallId>): (Shared, set<CallId>) {
    (s.(pending := s.pending - ids), s.pending * ids)
  }

  /** The cleanup at the end of read_loop: only if the slot still holds the reader's own channel is it
      cleared and the child taken. The second result is the child that is killed. */
  function ReaderCleanup(s: Shared, own: Pid): (Shared, Option<Pid>) {
    if s.tx == Some(own) then (Shared(None, None, s.pending), s.child) else (s, None)
  }

  /** The client's slots as fields; each method is one critical section. */
  class GoSidecar {
    var tx: Option<Pid>
    var child: Option<Pid>
    var pending: set<CallId>

    ghost function Slots(): Shared
      reads this
    {
      Shared(tx, child, pending)
    }

    constructor ()
      ensures Slots() == Shared(None, None, {})
    {
      tx, child, pending := None, None, {};
    }

    method SetTx(p: Option<Pid>)
      modifies this`tx
      ensures Slots() == SetSender(old(Slots()), p)
    {
      tx := p;
    }

    method StoreChild(p: Pid) returns (killed: Option<Pid>)
      modifies this`child
      ensures (Slots(), killed) == StoreChildIn(old(Slots()), p)
    {
      killed := child;
      child := Some(p);
    }

    method Register(c: CallId)
      modifies this`pending
      ensures Slots() == Enter(old(Slots()), c)
    {
      pending := pending + {c};
    }

    /** The removal shared by fail_request, a response line, a failed send and a timeout. */
    method Remove(c: CallId) returns (found: bool)
      modifies this`pending
      ensures (Slots(), if found then {c} else {}) == TakeFrom(old(Slots()), {c})
    {
      found := c in pending;
      assert pending * {c} == if found then {c} else {};
      assert !found ==> pending - {c} == pending;
      if found {
        pending := pending - {c};
      }
    }

    method DrainAll() returns (drained: set<CallId>)
      modifies this`pending
      ensures (Slots(), drained) == TakeFrom(old(Slots()), old(pending))
    {
      drained := pending;
      assert pending - pending == {} && pending * pending == pending;
      pending := {};
    }

    method CleanUpAfterReader(own: Pid) returns (killed: Option<Pid>)
      modifies this`tx, this`child
      ensures (Slots(), killed) == ReaderCleanup(old(Slots()), own)
    {
      killed := None;
      if tx.Some? && tx.value == own {
        tx := None;
        killed := child;
        child := None;
      }
    }
  }

  datatype Reader = Unborn | Reading | Exiting | Gone

  /** After a broken write the loop fails its own request, then all, and then ends: only its end closes the channel. */
  datatype Writer = Writing | FailingAll | Closing | Dead

  datatype Proc = Proc(reader: Reader, writer: Writer, queue: seq<CallId>)

  /** The holder of start_lock, by the section it will enter next. `Stuck` waits for the lock that it holds. */
  datatype Starter =
    | Free
    | Locked
    | Spawning
    | TxSet(p: Pid)
    | Handshake(p: Pid)   // about to clone the sender for the handshake call
    | Validating(p: Pid)  // handshake call under way
    | Clearing(p: Pid)
    | Stuck(p: Pid)

  datatype Outcome = Replied(reply: Reply) | NotRunning | TimedOut

  datatype Call =
    | Cloned(p: Pid)      // holds a clone of the sender
    | Registered(p: Pid)  // id in the table, about to send
    | Sent(p: Pid)        // waiting on its one-shot channel
    | SendFailed          // about to take its id back out
    | Expired             // timer fired, about to take its id back out
    | Returned(outcome: Outcome)

  /** Every way into and out of the pending table is logged, with the reply an id is taken out for. */
  datatype Event =
    | Entered(call: CallId, target: Pid)                     // sent to `target`
    | Answered(actor: Pid, call: CallId, body: Body)         // by a line that the reader of `actor` read
    | Failed(actor: Pid, calls: set<CallId>, all: bool)      // by fail_all, or else fail_request, of a loop of `actor`
    | TookBack(call: CallId, outcome: Outcome)               // by its caller
    | TooLate(call: CallId, outcome: Outcome)                // its caller came to take it back and it was gone
    | Killed(actor: Pid, target: Pid)    // by the reader of `actor`, or by the start of `actor` that failed validation
    | Replaced(actor: Pid, target: Pid)  // by the start of `actor`
    | Cleared(actor: Pid, target: Pid)   // sender slot emptied

  /** `mail` holds replies whose sender has been taken out of the table but which have not been sent yet,
      `inbox` the one-shot channels already filled. */
  datatype World = World(
    s: Shared,
    starter: Starter,
    procs: seq<Proc>,
    calls: seq<Call>,
    mail: map<CallId, Reply>,
    inbox: map<CallId, Reply>,
    log: seq<Event>)

  datatype WriteResult = Written | Unserializable | Broken

  datatype Action =
    | StartStep(ok: bool)
    | NewCall
    | CallStep(call: CallId, expire: bool)
    | Line(p: Pid, call: CallId, body: Body)
    | ReaderStep(p: Pid)
    | WriterStep(p: Pid, result: WriteResult)
    | Deliver(call: CallId)

  const INIT := World(Shared(None, None, {}), Free, [], [], map[], map[], [])

  function Step(w: World, a: Action): World {
    match a
    case StartStep(ok) => StepStarter(w, ok)
    case NewCall => if w.s.tx.Some? then w.(calls := w.calls + [Cloned(w.s.tx.value)]) else w
    case CallStep(c, expire) => if c < |w.calls| then StepCall(w, c, expire) else w
    case Line(p, c, body) =>
      if p < |w.procs| && w.procs[p].reader.Reading? && c in w.s.pending
      then TakeOut(w, {c}, Answer(body)).(log := w.log + [Answered(p, c, body)])
      else w
    case ReaderStep(p) => if p < |w.procs| then StepReader(w, p) else w
    case WriterStep(p, result) => if p < |w.procs| then StepWriter(w, p, result) else w
    case Deliver(c) =>
      if c in w.mail then w.(inbox := w.inbox[c := w.mail[c]], mail := w.mail - {c}) else w
  }

  /** Takes ids out of the table; their senders are about to send `reply`. */
  function TakeOut(w: World, ids: set<CallId>, reply: Reply): World {
    var (s, taken) := TakeFrom(w.s, ids);
    w.(s := s, mail := w.mail + map c | c in taken :: reply)
  }

  /** fail_request and fail_all, by a loop of `p`. */
  function FailIds(w: World, p: Pid, ids: set<CallId>, all: bool): World {
    TakeOut(w, ids, Failure).(log := w.log + [Failed(p, w.s.pending * ids, all)])
  }

  function FailAll(w: World, p: Pid): World {
    FailIds(w, p, w.s.pending, true)
  }

  function StepStarter(w: World, ok: bool): World {
    match w.starter
    case Free => w.(starter := Locked)
    case Locked => w.(starter := if w.s.tx.Some? then Free else Spawning)
    case Spawning =>
      if !ok then w.(starter := Free)
      else var p := |w.procs|;
           w.(s := SetSender(w.s, Some(p)), starter := TxSet(p), procs := w.procs + [Proc(Unborn, Writing, [])])
    case TxSet(p) =>
      if p >= |w.procs| then w
      else var (s, killed) := StoreChildIn(w.s, p);
           w.(s := s, starter := Handshake(p), procs := w.procs[p := w.procs[p].(reader := Reading)],
              log := w.log + if killed.Some? then [Replaced(p, killed.value)] else [])
    case Handshake(p) =>
      // Without a sender the handshake call restarts the sidecar itself, and waits for start_lock.
      w.(starter := if w.s.tx.Some? then Validating(p) else Stuck(p))
    case Validating(p) =>
      if ok then w.(starter := Free)
      else w.(s := SetSender(w.s, None), starter := Clearing(p),
              log := w.log + if w.s.tx.Some? then [Cleared(p, w.s.tx.value)] else [])
    case Clearing(p) =>
      w.(starter := Free, log := w.log + if w.s.child.Some? then [Killed(p, w.s.child.value)] else [])
    case Stuck(_) => w
  }

  function StepReader(w: World, p: Pid): World
    requires p < |w.procs|
  {
    match w.procs[p].reader
    case Reading => FailAll(w, p).(procs := w.procs[p := w.procs[p].(reader := Exiting)])
    case Exiting =>
      var (s, killed) := ReaderCleanup(w.s, p);
      w.(s := s, procs := w.procs[p := w.procs[p].(reader := Gone)],
         log := w.log + (if s.tx != w.s.tx then [Cleared(p, w.s.tx.value)] else [])
                      + (if killed.Some? then [Killed(p, killed.value)] else []))
    case _ => w
  }

  function StepWriter(w: World, p: Pid, result: WriteResult): World
    requires p < |w.procs|
  {
    var proc := w.procs[p];
    match proc.writer
    case Writing =>
      if proc.queue == [] then w
      else
        var w' := if result.Written? then w else FailIds(w, p, {proc.queue[0]}, false);
        w'.(procs := w.procs[p := proc.(queue := proc.queue[1..],
                                        writer := if result.Broken? then FailingAll else Writing)])
    case FailingAll => FailAll(w, p).(procs := w.procs[p := proc.(writer := Closing)])
    case Closing => w.(procs := w.procs[p := proc.(writer := Dead)])
    case Dead => w
  }

  function StepCall(w: World, c: CallId, expire: bool): World
    requires c < |w.calls|
  {
    match w.calls[c]
    case Cloned(p) =>
      w.(s := Enter(w.s, c), calls := w.calls[c := Registered(p)], log := w.log + [Entered(c, p)])
    case Registered(p) =>
      if p >= |w.procs| then w
      else if w.procs[p].writer.Dead? then w.(calls := w.calls[c := SendFailed])
      else if |w.procs[p].queue| >= QUEUE_CAPACITY then w
      else w.(procs := w.procs[p := w.procs[p].(queue := w.procs[p].queue + [c])], calls := w.calls[c := Sent(p)])
    case Sent(_) =>
      if c in w.inbox then w.(calls := w.calls[c := Returned(Replied(w.inbox[c]))])
      else if expire then w.(calls := w.calls[c := Expired])
      else w
    case SendFailed => TakeBack(w, c, NotRunning)
    case Expired => TakeBack(w, c, TimedOut)
    case Returned(_) => w
  }

  /** The caller takes its own id out of the table, if it is still there, and returns. */
  function TakeBack(w: World, c: CallId, outcome: Outcome): World
    requires c < |w.calls|
  {
    var (s, taken) := TakeFrom(w.s, {c});
    w.(s := s, calls := w.calls[c := Returned(outcome)],
       log := w.log + [if c in taken then TookBack(c, outcome) else TooLate(c, outcome)])
  }

  function Run(actions: seq<Action>): World {
    if actions == [] then INIT
    else Step(Run(actions[..|actions| - 1]), actions[|actions| - 1])
  }

  /** The slots belong together: outside the gap in which a start has stored the sender but not yet the
      child, a stored sender's process is the stored child. */
  ghost predicate SlotsInv(w: World) {
    && (w.s.tx.Some? ==> w.s.tx.value < |w.procs|)
    && (w.s.child.Some? ==> w.s.child.value < |w.procs| && !w.procs[w.s.child.value].reader.Unborn?)
    && (w.s.tx.Some? && w.starter != TxSet(w.s.tx.value) ==> w.s.child == w.s.tx)
    && match w.starter
       case TxSet(p) => p + 1 == |w.procs| && w.s.tx == Some(p) && w.procs[p].reader.Unborn?
       case Handshake(p) =>
         && p + 1 == |w.procs| && !w.procs[p].reader.Unborn?
         && w.s.tx == (if w.procs[p].reader.Gone? then None else Some(p))
         && (w.s.child == None || w.s.child == Some(p))
       case Stuck(p) => p + 1 == |w.procs| && w.s.tx == None
       case Validating(p) =>
         p + 1 == |w.procs| && (w.s.tx == None || w.s.tx == Some(p)) && (w.s.child == None || w.s.child == Some(p))
       case Clearing(p) =>
         p + 1 == |w.procs| && w.s.tx == None && (w.s.child == None || w.s.child == Some(p))
       case Spawning => w.s.tx == None
       case _ => true
  }

  ghost predicate EventOwn(e: Event) {
    match e
    case Killed(actor, target) => target == actor
    case Cleared(actor, target) => target == actor
    case Replaced(actor, target) => target < actor
    case _ => true
  }

  ghost predicate OwnInv(w: World) {
    SlotsInv(w) && forall k | 0 <= k < |w.log| :: EventOwn(w.log[k])
  }

  lemma OwnLog(log: seq<Event>, more: seq<Event>)
    requires forall k | 0 <= k < |log| :: EventOwn(log[k])
    requires forall k | 0 <= k < |more| :: EventOwn(more[k])
    ensures forall k | 0 <= k < |log + more| :: EventOwn((log + more)[k])
  {
  }

  lemma SlotsStarter(w: World, ok: bool)
    requires SlotsInv(w)
    ensures SlotsInv(StepStarter(w, ok))
  {
    var w' := StepStarter(w, ok);
    match w.starter
    case Spawning => if ok { assert w'.procs[|w.procs|] == Proc(Unborn, Writing, []); }
    case _ =>
  }

  lemma OwnStarter(w: World, ok: bool)
    requires OwnInv(w)
    ensures OwnInv(StepStarter(w, ok))
  {
    SlotsStarter(w, ok);
    match w.starter
    case TxSet(p) => OwnLog(w.log, if w.s.child.Some? then [Replaced(p, w.s.child.value)] else []);
    case Validating(p) => if !ok { OwnLog(w.log, if w.s.tx.Some? then [Cleared(p, w.s.tx.value)] else []); }
    case Clearing(p) => OwnLog(w.log, if w.s.child.Some? then [Killed(p, w.s.child.value)] else []);
    case _ =>
  }

  lemma OwnFail(w: World, p: Pid, ids: set<CallId>, all: bool)
    requires OwnInv(w)
    ensures OwnInv(FailIds(w, p, ids, all))
  {
    OwnLog(w.log, [Failed(p, w.s.pending * ids, all)]);
  }

  lemma OwnReader(w: World, p: Pid)
    requires OwnInv(w) && p < |w.procs|
    ensures OwnInv(StepReader(w, p))
  {
    var w' := StepReader(w, p);
    if w.procs[p].reader.Reading? {
      OwnFail(w, p, w.s.pending, true);
    }
    if w.procs[p].reader.Exiting? {
      var (s, killed) := ReaderCleanup(w.s, p);
      if w.s.tx == Some(p) {
        assert w.starter != TxSet(p);
        assert w'.log == w.log + ([Cleared(p, p)] + [Killed(p, p)]);
        OwnLog(w.log, [Cleared(p, p)] + [Killed(p, p)]);
      } else {
        assert w'.log == w.log;
      }
    }
  }

  lemma SlotsWriter(w: World, p: Pid, result: WriteResult)
    requires SlotsInv(w) && p < |w.procs|
    ensures SlotsInv(StepWriter(w, p, result))
  {
    var w' := StepWriter(w, p, result);
    assert |w'.procs| == |w.procs| && forall q | 0 <= q < |w.procs| :: w'.procs[q].reader == w.procs[q].reader;
    assert w'.s.tx == w.s.tx && w'.s.child == w.s.child && w'.starter == w.starter;
  }

  /** A writer logs its failures only. */
  lemma WriterLogs(w: World, p: Pid, result: WriteResult)
    requires p < |w.procs|
    ensures var w' := StepWriter(w, p, result);
            || w'.log == w.log
            || (|w'.log| == |w.log| + 1 && w'.log == w.log + [w'.log[|w.log|]] && w'.log[|w.log|].Failed?)
  {
  }

  lemma OwnWriter(w: World, p: Pid, result: WriteResult)
    requires OwnInv(w) && p < |w.procs|
    ensures OwnInv(StepWriter(w, p, result))
  {
    SlotsWriter(w, p, result);
    WriterLogs(w, p, result);
    var w' := StepWriter(w, p, result);
    if w'.log != w.log {
      OwnLog(w.log, [w'.log[|w.log|]]);
    }
  }

  lemma SlotsCall(w: World, c: CallId, expire: bool)
    requires SlotsInv(w) && c < |w.calls|
    ensures SlotsInv(StepCall(w, c, expire))
  {
  }

  lemma OwnCall(w: World, c: CallId, expire: bool)
    requires OwnInv(w) && c < |w.calls|
    ensures OwnInv(StepCall(w, c, expire))
  {
    var w' := StepCall(w, c, expire);
    SlotsCall(w, c, expire);
    if w'.log != w.log {
      assert w'.log == w.log + [w'.log[|w.log|]];
      OwnLog(w.log, [w'.log[|w.log|]]);
    }
  }

  lemma OwnStep(w: World, a: Action)
    requires OwnInv(w)
    ensures OwnInv(Step(w, a))
  {
    match a
    case StartStep(ok) => OwnStarter(w, ok);
    case CallStep(c, expire) => if c < |w.calls| { OwnCall(w, c, expire); }
    case Line(p, c, body) => OwnLog(w.log, [Answered(p, c, body)]);
    case ReaderStep(p) => if p < |w.procs| { OwnReader(w, p); }
    case WriterStep(p, result) => if p < |w.procs| { OwnWriter(w, p, result); }
    case _ =>
  }

  lemma {:induction false} OwnHolds(actions: seq<Action>)
    ensures OwnInv(Run(actions))
  {
    if actions != [] {
      var n := |actions| - 1;
      OwnHolds(actions[..n]);
      OwnStep(Run(actions[..n]), actions[n]);
    }
  }

  /** Over every run: a reader, or a start whose validation failed, empties the sender slot only of its own
      channel and kills only its own process; a start kills only processes older than the one it starts. */
  lemma OnlyOwnProcessTornDown(actions: seq<Action>, k: nat)
    requires k < |Run(actions).log|
    ensures match Run(actions).log[k]
            case Killed(actor, target) => target == actor
            case Cleared(actor, target) => target == actor
            case Replaced(actor, target) => target < actor
            case _ => true
  {
    OwnHolds(actions);
    assert EventOwn(Run(actions).log[k]);
  }

  // ---------------------------------------------------------------- the story of one call

  ghost predicate Waiting(call: Call) {
    call.Registered? || call.Sent? || call.SendFailed? || call.Expired?
  }

  predicate Concerns(e: Event, c: CallId) {
    match e
    case Entered(d, _) => d == c
    case Answered(_, d, _) => d == c
    case Failed(_, ds, _) => c in ds
    case TookBack(d, _) => d == c
    case TooLate(d, _) => d == c
    case _ => false
  }

  /** Taken out of the table for a reply. */
  predicate RepliesTo(e: Event, c: CallId) {
    (e.Answered? || e.Failed?) && Concerns(e, c)
  }

  /** Taken out of the table. */
  predicate Removes(e: Event, c: CallId) {
    RepliesTo(e, c) || (e.TookBack? && e.call == c)
  }

  function ReplyOf(e: Event): Reply {
    if e.Answered? then Answer(e.body) else Failure
  }

  /** The part of the history that concerns call `c`. */
  function Story(log: seq<Event>, c: CallId): seq<Event> {
    if log == [] then []
    else Story(log[..|log| - 1], c) + if Concerns(log[|log| - 1], c) then [log[|log| - 1]] else []
  }

  /** The only stories there are, by where the call stands: it enters the table, leaves it once, for a reply or
      with its caller, and returns what it left for; or its caller gives it up too late. */
  ghost predicate StoryOf(w: World, c: CallId, story: seq<Event>) {
    if c >= |w.calls| || w.calls[c].Cloned? then
      story == [] && c !in w.s.pending && c !in w.mail && c !in w.inbox
    else
      && BeginsWell(w.calls[c], c, story)
      && if w.calls[c].Returned? then c !in w.s.pending && Settled(story, c, w.calls[c].outcome)
         else if c in w.s.pending then |story| == 1 && c !in w.mail && c !in w.inbox
         else |story| == 2 && RepliesTo(story[1], c) && OnTheWay(w, c, ReplyOf(story[1]))
  }

  ghost predicate BeginsWell(call: Call, c: CallId, story: seq<Event>) {
    && story != [] && story[0].Entered? && story[0].call == c
    && (call.Registered? || call.Sent? ==> story[0].target == call.p)
  }

  /** The reply has been taken out for the call, and is in exactly one of mail and inbox. */
  ghost predicate OnTheWay(w: World, c: CallId, reply: Reply) {
    if c in w.mail then c !in w.inbox && w.mail[c] == reply else c in w.inbox && w.inbox[c] == reply
  }

  /** The story of a call that returned `outcome`. */
  ghost predicate Settled(story: seq<Event>, c: CallId, outcome: Outcome) {
    if outcome.Replied? then |story| == 2 && RepliesTo(story[1], c) && outcome.reply == ReplyOf(story[1])
    else
      || (|story| == 2 && story[1] == TookBack(c, outcome))
      || (|story| == 3 && RepliesTo(story[1], c) && story[2] == TooLate(c, outcome))
  }

  ghost predicate CallInv(w: World, c: CallId) {
    StoryOf(w, c, Story(w.log, c))
  }

  lemma StorySnoc(log: seq<Event>, e: Event, c: CallId)
    ensures Story(log + [e], c) == Story(log, c) + if Concerns(e, c) then [e] else []
  {
    assert (log + [e])[..|log|] == log;
  }

  /** Nothing that StoryOf looks at changes but the history, and that by other events. */
  lemma {:induction false} StoryUntouched(log: seq<Event>, more: seq<Event>, c: CallId)
    requires forall k | 0 <= k < |more| :: !Concerns(more[k], c)
    ensures Story(log + more, c) == Story(log, c)
  {
    if more == [] {
      assert log + more == log;
    } else {
      var front, last := more[..|more| - 1], more[|more| - 1];
      StoryUntouched(log, front, c);
      assert log + more == (log + front) + [last];
      StorySnoc(log + front, last, c);
    }
  }

  lemma CallUntouched(w: World, w': World, more: seq<Event>, c: CallId)
    requires CallInv(w, c)
    requires w'.s.pending == w.s.pending && w'.mail == w.mail && w'.inbox == w.inbox && w'.calls == w.calls
    requires w'.log == w.log + more && forall k | 0 <= k < |more| :: !Concerns(more[k], c)
    ensures CallInv(w', c)
  {
    StoryUntouched(w.log, more, c);
  }

  lemma CallFail(w: World, p: Pid, ids: set<CallId>, all: bool, c: CallId)
    requires CallInv(w, c)
    ensures CallInv(FailIds(w, p, ids, all), c)
  {
    StorySnoc(w.log, Failed(p, w.s.pending * ids, all), c);
  }

  lemma CallLine(w: World, p: Pid, d: CallId, body: Body, c: CallId)
    requires CallInv(w, c)
    ensures CallInv(Step(w, Line(p, d, body)), c)
  {
    StorySnoc(w.log, Answered(p, d, body), c);
  }

  /** CallInv looks neither at processes nor at the starter. */
  lemma CallProcs(w: World, procs: seq<Proc>, c: CallId)
    requires CallInv(w, c)
    ensures CallInv(w.(procs := procs), c)
  {
  }

  lemma CallWriter(w: World, p: Pid, result: WriteResult, c: CallId)
    requires CallInv(w, c) && p < |w.procs|
    ensures CallInv(StepWriter(w, p, result), c)
  {
    var procs := StepWriter(w, p, result).procs;
    if w.procs[p].writer.Writing? && w.procs[p].queue != [] && !result.Written? {
      CallFail(w, p, {w.procs[p].queue[0]}, false, c);
      CallProcs(FailIds(w, p, {w.procs[p].queue[0]}, false), procs, c);
    } else if w.procs[p].writer.FailingAll? {
      CallFail(w, p, w.s.pending, true, c);
      CallProcs(FailAll(w, p), procs, c);
    } else {
      CallProcs(w, procs, c);
    }
  }

  lemma CallReader(w: World, p: Pid, c: CallId)
    requires CallInv(w, c) && p < |w.procs|
    ensures CallInv(StepReader(w, p), c)
  {
    var w' := StepReader(w, p);
    match w.procs[p].reader
    case Reading =>
      CallFail(w, p, w.s.pending, true, c);
      CallProcs(FailAll(w, p), w'.procs, c);
    case Exiting =>
      var more := w'.log[|w.log|..];
      assert w'.log == w.log + more;
      CallUntouched(w, w', more, c);
    case _ =>
  }

  /** Events that neither enter nor leave the table. */
  predicate Idle(e: Event) {
    e.TooLate? || e.Killed? || e.Replaced? || e.Cleared?
  }

  lemma StarterLogs(w: World, ok: bool)
    ensures var w' := StepStarter(w, ok);
            && w'.s.pending == w.s.pending && w'.mail == w.mail && w'.inbox == w.inbox && w'.calls == w.calls
            && w.log <= w'.log && forall k | |w.log| <= k < |w'.log| :: Idle(w'.log[k])
  {
  }

  lemma CallStarter(w: World, ok: bool, c: CallId)
    requires CallInv(w, c)
    ensures CallInv(StepStarter(w, ok), c)
  {
    var w' := StepStarter(w, ok);
    StarterLogs(w, ok);
    var more := w'.log[|w.log|..];
    assert w'.log == w.log + more && forall k | 0 <= k < |more| :: more[k] == w'.log[|w.log| + k];
    CallUntouched(w, w', more, c);
  }

  /** A section of another caller. */
  lemma OtherLogs(w: World, d: CallId, expire: bool, c: CallId)
    requires d < |w.calls| && d != c
    ensures var w' := StepCall(w, d, expire);
            && (c in w'.s.pending <==> c in w.s.pending) && w'.mail == w.mail && w'.inbox == w.inbox
            && |w'.calls| == |w.calls| && (c < |w.calls| ==> w'.calls[c] == w.calls[c])
            && (w'.log == w.log || (|w'.log| == |w.log| + 1 && w.log <= w'.log && !Concerns(w'.log[|w.log|], c)))
  {
  }

  lemma CallOther(w: World, d: CallId, expire: bool, c: CallId)
    requires CallInv(w, c) && d < |w.calls| && d != c
    ensures CallInv(StepCall(w, d, expire), c)
  {
    var w' := StepCall(w, d, expire);
    OtherLogs(w, d, expire, c);
    if w'.log != w.log {
      assert w'.log == w.log + [w'.log[|w.log|]];
      StorySnoc(w.log, w'.log[|w.log|], c);
    }
  }

  lemma CallBack(w: World, c: CallId, outcome: Outcome)
    requires CallInv(w, c) && c < |w.calls| && Waiting(w.calls[c]) && !outcome.Replied?
    ensures CallInv(TakeBack(w, c, outcome), c)
  {
    StorySnoc(w.log, if c in w.s.pending then TookBack(c, outcome) else TooLate(c, outcome), c);
  }

  lemma CallEnters(w: World, c: CallId, expire: bool)
    requires CallInv(w, c) && c < |w.calls| && w.calls[c].Cloned?
    ensures CallInv(StepCall(w, c, expire), c)
  {
    StorySnoc(w.log, Entered(c, w.calls[c].p), c);
  }

  lemma CallWaits(w: World, c: CallId, expire: bool)
    requires CallInv(w, c) && c < |w.calls| && (w.calls[c].Registered? || w.calls[c].Sent?)
    ensures CallInv(StepCall(w, c, expire), c)
  {
    assert StepCall(w, c, expire).log == w.log;
  }

  lemma CallOwn(w: World, c: CallId, expire: bool)
    requires CallInv(w, c) && c < |w.calls|
    ensures CallInv(StepCall(w, c, expire), c)
  {
    match w.calls[c]
    case Cloned(_) => CallEnters(w, c, expire);
    case SendFailed => CallBack(w, c, NotRunning);
    case Expired => CallBack(w, c, TimedOut);
    case Returned(_) =>
    case _ => CallWaits(w, c, expire);
  }

  lemma CallInvStep(w: World, a: Action, c: CallId)
    requires CallInv(w, c)
    ensures CallInv(Step(w, a), c)
  {
    match a
    case StartStep(ok) => CallStarter(w, ok, c);
    case CallStep(d, expire) =>
      if d < |w.calls| { if d == c { CallOwn(w, c, expire); } else { CallOther(w, d, expire, c); } }
    case Line(p, d, body) => CallLine(w, p, d, body, c);
    case ReaderStep(p) => if p < |w.procs| { CallReader(w, p, c); }
    case WriterStep(p, result) => if p < |w.procs| { CallWriter(w, p, result, c); }
    case _ =>
  }

  /** In every run the story of every call is one of these. */
  lemma {:induction false} CallsHold(actions: seq<Action>, c: CallId)
    ensures CallInv(Run(actions), c)
  {
    if actions != [] {
      CallsHold(actions[..|actions| - 1], c);
      CallInvStep(Run(actions[..|actions| - 1]), actions[|actions| - 1], c);
    }
  }

  function Removals(log: seq<Event>, c: CallId): nat {
    if log == [] then 0 else Removals(log[..|log| - 1], c) + if Removes(log[|log| - 1], c) then 1 else 0
  }

  lemma RemovalsSnoc(log: seq<Event>, e: Event, c: CallId)
    ensures Removals(log + [e], c) == Removals(log, c) + if Removes(e, c) then 1 else 0
  {
    assert (log + [e])[..|log|] == log;
  }

  lemma {:induction false} RemovalsOfStory(log: seq<Event>, c: CallId)
    ensures Removals(Story(log, c), c) == Removals(log, c)
  {
    if log != [] {
      RemovalsOfStory(log[..|log| - 1], c);
      if Concerns(log[|log| - 1], c) {
        RemovalsSnoc(Story(log[..|log| - 1], c), log[|log| - 1], c);
      } else {
        assert Story(log, c) == Story(log[..|log| - 1], c);
      }
    }
  }

  lemma {:induction false} RemovalCounts(log: seq<Event>, c: CallId, j: nat)
    requires j < |log| && Removes(log[j], c)
    ensures Removals(log, c) > Removals(log[..j], c)
    decreases |log|
  {
    if j < |log| - 1 {
      RemovalCounts(log[..|log| - 1], c, j);
      assert log[..|log| - 1][..j] == log[..j];
    }
  }

  lemma RemovalsOfThree(a: Event, b: Event, d: Event, c: CallId)
    ensures Removals([a], c) == if Removes(a, c) then 1 else 0
    ensures Removals([a, b], c) == Removals([a], c) + if Removes(b, c) then 1 else 0
    ensures Removals([a, b, d], c) == Removals([a, b], c) + if Removes(d, c) then 1 else 0
  {
    assert [] + [a] == [a] && [a] + [b] == [a, b] && [a, b] + [d] == [a, b, d];
    RemovalsSnoc([], a, c);
    RemovalsSnoc([a], b, c);
    RemovalsSnoc([a, b], d, c);
  }

  lemma ShortStory(w: World, c: CallId, story: seq<Event>)
    requires StoryOf(w, c, story)
    ensures Removals(story, c) <= 1
  {
    if |story| == 1 {
      assert story == [story[0]];
      RemovalsOfThree(story[0], story[0], story[0], c);
    } else if |story| == 2 {
      assert story == [story[0], story[1]];
      RemovalsOfThree(story[0], story[1], story[1], c);
    } else if |story| == 3 {
      assert story == [story[0], story[1], story[2]];
      RemovalsOfThree(story[0], story[1], story[2], c);
    }
  }

  /** An id is taken out of the table at most once, whether a line answers it, a loop fails it or its caller takes
      it back. */
  lemma ResolvedAtMostOnce(actions: seq<Action>, c: CallId, j: nat, k: nat)
    requires j < |Run(actions).log| && Removes(Run(actions).log[j], c)
    requires k < |Run(actions).log| && Removes(Run(actions).log[k], c)
    ensures j == k
  {
    var log := Run(actions).log;
    CallsHold(actions, c);
    RemovalsOfStory(log, c);
    ShortStory(Run(actions), c, Story(log, c));
    var first, last := if j < k then j else k, if j < k then k else j;
    if first < last {
      RemovalCounts(log, c, last);
      assert log[..last][first] == log[first];
      RemovalCounts(log[..last], c, first);
    }
  }

  /** A call returns what its id was taken out of the table for: the reply of the line or loop that took it, or
      `NotRunning` or `TimedOut` exactly if it came to take its id back, in time or too late. */
  lemma OutcomeIsTheRemoval(actions: seq<Action>, c: CallId)
    requires c < |Run(actions).calls| && Run(actions).calls[c].Returned?
    ensures Settled(Story(Run(actions).log, c), c, Run(actions).calls[c].outcome)
    ensures c !in Run(actions).s.pending
  {
    CallsHold(actions, c);
  }

  lemma {:induction false} StoryInLog(log: seq<Event>, c: CallId)
    ensures forall e | e in Story(log, c) :: e in log && Concerns(e, c)
  {
    if log != [] {
      StoryInLog(log[..|log| - 1], c);
    }
  }

  /** A caller that returned an answer got the body of a response line that carried its own id. */
  lemma AnswersAreOwn(actions: seq<Action>, c: CallId, body: Body)
    requires c < |Run(actions).calls| && Run(actions).calls[c] == Returned(Replied(Answer(body)))
    ensures exists p :: Answered(p, c, body) in Run(actions).log
  {
    CallsHold(actions, c);
    var story := Story(Run(actions).log, c);
    StoryInLog(Run(actions).log, c);
    assert story[1] == Answered(story[1].actor, c, body) && story[1] in story;
  }

  lemma StepKeepsReturned(w: World, a: Action, c: CallId)
    requires c < |w.calls| && w.calls[c].Returned?
    ensures c < |Step(w, a).calls| && Step(w, a).calls[c] == w.calls[c]
  {
  }

  /** Once a call has returned, however it was resolved, its id is out of the table and stays out. */
  lemma ReturnedIsOutOfTable(actions: seq<Action>, more: seq<Action>, c: CallId)
    requires c < |Run(actions).calls| && Run(actions).calls[c].Returned?
    ensures c !in Run(actions + more).s.pending
    decreases |more|
  {
    StaysReturned(actions, more, c);
    CallsHold(actions + more, c);
  }

  lemma {:induction false} StaysReturned(actions: seq<Action>, more: seq<Action>, c: CallId)
    requires c < |Run(actions).calls| && Run(actions).calls[c].Returned?
    ensures c < |Run(actions + more).calls| && Run(actions + more).calls[c] == Run(actions).calls[c]
    decreases |more|
  {
    if more == [] {
      assert actions + more == actions;
    } else {
      var n := |more| - 1;
      StaysReturned(actions, more[..n], c);
      assert actions + more == (actions + more[..n]) + [more[n]];
      RunSnoc(actions + more[..n], more[n]);
      StepKeepsReturned(Run(actions + more[..n]), more[n], c);
    }
  }

  /** A waiting caller is never orphaned: its id is still in the table, or its reply is on the way or has
      arrived. So the one-shot channel is never dropped empty. */
  lemma NoOrphanedCaller(actions: seq<Action>, c: CallId)
    requires c < |Run(actions).calls| && Waiting(Run(actions).calls[c])
    ensures var w := Run(actions);
            (c in w.s.pending && c !in w.mail && c !in w.inbox)
            || (c !in w.s.pending && c in w.mail && c !in w.inbox)
            || (c !in w.s.pending && c !in w.mail && c in w.inbox)
  {
    CallsHold(actions, c);
  }

  // ---------------------------------------------------------------- failures across processes

  function TableAfter(before: set<CallId>, e: Event): set<CallId> {
    match e
    case Entered(c, _) => before + {c}
    case Answered(_, c, _) => before - {c}
    case Failed(_, cs, _) => before - cs
    case TookBack(c, _) => before - {c}
    case _ => before
  }

  /** The pending table, read off the history. */
  function Table(log: seq<Event>): set<CallId> {
    if log == [] then {} else TableAfter(Table(log[..|log| - 1]), log[|log| - 1])
  }

  lemma TableSnoc(log: seq<Event>, e: Event)
    ensures Table(log + [e]) == TableAfter(Table(log), e)
  {
    assert (log + [e])[..|log|] == log;
  }

  /** fail_all takes out the whole table, fail_request at most one call, sent to the process that fails it. */
  ghost predicate FailureFits(past: seq<Event>, e: Event) {
    e.Failed? ==> if e.all then e.calls == Table(past) else forall c | c in e.calls :: Entered(c, e.actor) in past
  }

  ghost predicate QueuesFit(w: World) {
    && (forall p, c | 0 <= p < |w.procs| && c in w.procs[p].queue :: Entered(c, p) in w.log)
    && (forall c | 0 <= c < |w.calls| && (w.calls[c].Registered? || w.calls[c].Sent?) ::
          Entered(c, w.calls[c].p) in w.log)
  }

  ghost predicate FailInv(w: World) {
    && w.s.pending == Table(w.log)
    && QueuesFit(w)
    && forall k | 0 <= k < |w.log| :: FailureFits(w.log[..k], w.log[k])
  }

  lemma {:induction false} TableIdle(log: seq<Event>, more: seq<Event>)
    requires forall k | 0 <= k < |more| :: Idle(more[k])
    ensures Table(log + more) == Table(log)
  {
    if more == [] {
      assert log + more == log;
    } else {
      var front, last := more[..|more| - 1], more[|more| - 1];
      TableIdle(log, front);
      assert log + more == (log + front) + [last];
      TableSnoc(log + front, last);
    }
  }

  lemma FitsGrow(log: seq<Event>, more: seq<Event>)
    requires forall k | 0 <= k < |log| :: FailureFits(log[..k], log[k])
    requires forall k | 0 <= k < |more| :: !more[k].Failed?
    ensures forall k | 0 <= k < |log + more| :: FailureFits((log + more)[..k], (log + more)[k])
  {
    forall k | 0 <= k < |log + more|
      ensures FailureFits((log + more)[..k], (log + more)[k])
    {
      if k < |log| {
        assert (log + more)[..k] == log[..k] && (log + more)[k] == log[k];
      }
    }
  }

  lemma FitsAdd(log: seq<Event>, e: Event)
    requires forall k | 0 <= k < |log| :: FailureFits(log[..k], log[k])
    requires FailureFits(log, e)
    ensures forall k | 0 <= k < |log + [e]| :: FailureFits((log + [e])[..k], (log + [e])[k])
  {
    forall k | 0 <= k < |log + [e]|
      ensures FailureFits((log + [e])[..k], (log + [e])[k])
    {
      if k < |log| {
        assert (log + [e])[..k] == log[..k];
      } else {
        assert (log + [e])[..k] == log;
      }
    }
  }

  /** Neither table nor calls change, and queues only shrink. */
  lemma FailIdle(w: World, w': World, more: seq<Event>)
    requires FailInv(w) && w'.s.pending == w.s.pending && w'.calls == w.calls
    requires w'.log == w.log + more && forall k | 0 <= k < |more| :: Idle(more[k])
    requires forall p, c | 0 <= p < |w'.procs| && c in w'.procs[p].queue :: p < |w.procs| && c in w.procs[p].queue
    ensures FailInv(w')
  {
    TableIdle(w.log, more);
    FitsGrow(w.log, more);
    assert forall e | e in w.log :: e in w'.log;
  }

  lemma QueuesFitLonger(w: World, w': World, e: Event)
    requires QueuesFit(w) && w'.log == w.log + [e] && w'.procs == w.procs && |w'.calls| == |w.calls|
    requires forall c | 0 <= c < |w.calls| && (w'.calls[c].Registered? || w'.calls[c].Sent?) ::
               w'.calls[c] == w.calls[c] || e == Entered(c, w'.calls[c].p)
    ensures QueuesFit(w')
  {
    assert e in w'.log;
  }

  lemma FailTakeOut(w: World, p: Pid, ids: set<CallId>, all: bool)
    requires FailInv(w)
    requires if all then ids == w.s.pending else forall c | c in ids :: Entered(c, p) in w.log
    ensures FailInv(FailIds(w, p, ids, all))
  {
    var e := Failed(p, w.s.pending * ids, all);
    TableSnoc(w.log, e);
    assert all ==> w.s.pending * ids == w.s.pending;
    FitsAdd(w.log, e);
    QueuesFitLonger(w, FailIds(w, p, ids, all), e);
  }

  lemma FailProc(w: World, p: Pid, proc: Proc)
    requires FailInv(w) && p < |w.procs| && forall c | c in proc.queue :: c in w.procs[p].queue
    ensures FailInv(w.(procs := w.procs[p := proc]))
  {
  }

  lemma FailWriter(w: World, p: Pid, result: WriteResult)
    requires FailInv(w) && p < |w.procs|
    ensures FailInv(StepWriter(w, p, result))
  {
    var proc, w' := w.procs[p], StepWriter(w, p, result);
    if proc.writer.Writing? && proc.queue != [] {
      assert proc.queue[0] in proc.queue;
      if result.Written? {
        FailProc(w, p, w'.procs[p]);
      } else {
        FailTakeOut(w, p, {proc.queue[0]}, false);
        FailProc(FailIds(w, p, {proc.queue[0]}, false), p, w'.procs[p]);
      }
    } else if proc.writer.FailingAll? {
      FailTakeOut(w, p, w.s.pending, true);
      FailProc(FailAll(w, p), p, w'.procs[p]);
    }
  }

  lemma FailReader(w: World, p: Pid)
    requires FailInv(w) && p < |w.procs|
    ensures FailInv(StepReader(w, p))
  {
    var w' := StepReader(w, p);
    if w.procs[p].reader.Reading? {
      FailTakeOut(w, p, w.s.pending, true);
      FailProc(FailAll(w, p), p, w'.procs[p]);
    } else if w.procs[p].reader.Exiting? {
      assert w'.log == w.log + w'.log[|w.log|..];
      FailIdle(w, w', w'.log[|w.log|..]);
    }
  }

  lemma FailStarter(w: World, ok: bool)
    requires FailInv(w)
    ensures FailInv(StepStarter(w, ok))
  {
    var w' := StepStarter(w, ok);
    StarterLogs(w, ok);
    var more := w'.log[|w.log|..];
    assert w'.log == w.log + more && forall k | 0 <= k < |more| :: more[k] == w'.log[|w.log| + k];
    FailIdle(w, w', more);
  }

  /** One event that takes nothing out for a failure, and at most the call it enters changes where it stands. */
  lemma FailAdd(w: World, w': World, e: Event)
    requires FailInv(w) && !e.Failed? && w'.log == w.log + [e] && w'.procs == w.procs
    requires w'.s.pending == TableAfter(w.s.pending, e)
    requires |w'.calls| == |w.calls|
    requires forall c | 0 <= c < |w.calls| && (w'.calls[c].Registered? || w'.calls[c].Sent?) ::
               w'.calls[c] == w.calls[c] || e == Entered(c, w'.calls[c].p)
    ensures FailInv(w')
  {
    TableSnoc(w.log, e);
    FitsAdd(w.log, e);
    QueuesFitLonger(w, w', e);
  }

  lemma FailLine(w: World, p: Pid, c: CallId, body: Body)
    requires FailInv(w)
    ensures FailInv(Step(w, Line(p, c, body)))
  {
    if p < |w.procs| && w.procs[p].reader.Reading? && c in w.s.pending {
      FailAdd(w, Step(w, Line(p, c, body)), Answered(p, c, body));
    }
  }

  lemma FailEnter(w: World, c: CallId, expire: bool)
    requires FailInv(w) && c < |w.calls| && w.calls[c].Cloned?
    ensures FailInv(StepCall(w, c, expire))
  {
    FailAdd(w, StepCall(w, c, expire), Entered(c, w.calls[c].p));
  }

  lemma FailBack(w: World, c: CallId, outcome: Outcome)
    requires FailInv(w) && c < |w.calls|
    ensures FailInv(TakeBack(w, c, outcome))
  {
    var e := if c in w.s.pending then TookBack(c, outcome) else TooLate(c, outcome);
    assert c !in w.s.pending ==> w.s.pending - {c} == w.s.pending;
    FailAdd(w, TakeBack(w, c, outcome), e);
  }

  lemma FailSend(w: World, c: CallId, expire: bool)
    requires FailInv(w) && c < |w.calls| && (w.calls[c].Registered? || w.calls[c].Sent?)
    ensures FailInv(StepCall(w, c, expire))
  {
  }

  lemma FailStep(w: World, a: Action)
    requires FailInv(w)
    ensures FailInv(Step(w, a))
  {
    match a
    case StartStep(ok) => FailStarter(w, ok);
    case CallStep(c, expire) =>
      if c < |w.calls| {
        match w.calls[c]
        case Cloned(_) => FailEnter(w, c, expire);
        case SendFailed => FailBack(w, c, NotRunning);
        case Expired => FailBack(w, c, TimedOut);
        case Returned(_) =>
        case _ => FailSend(w, c, expire);
      }
    case Line(p, c, body) => FailLine(w, p, c, body);
    case ReaderStep(p) => if p < |w.procs| { FailReader(w, p); }
    case WriterStep(p, result) => if p < |w.procs| { FailWriter(w, p, result); }
    case _ =>
  }

  lemma {:induction false} FailuresHold(actions: seq<Action>)
    ensures FailInv(Run(actions))
  {
    if actions != [] {
      FailuresHold(actions[..|actions| - 1]);
      FailStep(Run(actions[..|actions| - 1]), actions[|actions| - 1]);
    }
  }

  lemma {:induction false} EnteredOnce(log: seq<Event>, c: CallId, p: Pid)
    requires Entered(c, p) in log
    ensures Entered(c, p) in Story(log, c)
  {
    if Entered(c, p) in log[..|log| - 1] {
      EnteredOnce(log[..|log| - 1], c, p);
    } else {
      assert log[|log| - 1] == Entered(c, p);
    }
  }

  /** Over every run, the loops of a process fail a call sent to another process exactly by a fail_all, at the end
      of its reader or after a broken write, that finds the call in the table. */
  lemma CrossFailureIff(actions: seq<Action>, k: nat, c: CallId, q: Pid)
    requires k < |Run(actions).log| && Run(actions).log[k].Failed?
    requires Entered(c, q) in Run(actions).log && q != Run(actions).log[k].actor
    ensures var log := Run(actions).log;
            c in log[k].calls <==> log[k].all && c in Table(log[..k])
  {
    var log := Run(actions).log;
    FailuresHold(actions);
    assert FailureFits(log[..k], log[k]);
    if c in log[k].calls && !log[k].all {
      assert Entered(c, log[k].actor) in log;
      OneEntry(actions, c, q, log[k].actor);
    }
  }

  lemma OnlyFirstEnters(w: World, c: CallId, story: seq<Event>, p: Pid)
    requires StoryOf(w, c, story) && Entered(c, p) in story
    ensures story[0] == Entered(c, p)
  {
  }

  /** A call is sent to one process. */
  lemma OneEntry(actions: seq<Action>, c: CallId, p: Pid, q: Pid)
    requires Entered(c, p) in Run(actions).log && Entered(c, q) in Run(actions).log
    ensures p == q
  {
    var story := Story(Run(actions).log, c);
    CallsHold(actions, c);
    EnteredOnce(Run(actions).log, c, p);
    EnteredOnce(Run(actions).log, c, q);
    OnlyFirstEnters(Run(actions), c, story, p);
    OnlyFirstEnters(Run(actions), c, story, q);
  }

  /** The table read off the history is the table, and the end of a reader, and that of a writer after a broken
      write, are such a fail_all: they fail exactly the calls in it. */
  lemma LoopEndFailsTable(actions: seq<Action>, p: Pid, result: WriteResult)
    requires p < |Run(actions).procs|
    ensures Run(actions).s.pending == Table(Run(actions).log)
    ensures Run(actions).procs[p].reader.Reading? ==>
              FailsTable(Run(actions), Run(actions + [ReaderStep(p)]), p)
    ensures Run(actions).procs[p].writer.FailingAll? ==>
              FailsTable(Run(actions), Run(actions + [WriterStep(p, result)]), p)
  {
    FailuresHold(actions);
    RunSnoc(actions, ReaderStep(p));
    RunSnoc(actions, WriterStep(p, result));
    assert Run(actions).s.pending * Run(actions).s.pending == Run(actions).s.pending;
  }

  ghost predicate FailsTable(w: World, w': World, p: Pid) {
    && w'.log == w.log + [Failed(p, Table(w.log), true)] && w'.s.pending == {}
    && forall c | c in w.s.pending :: c in w'.mail && w'.mail[c] == Failure
  }

  /** A process whose loops can take nothing out of the table any more: its reader has ended, and its writer has
      too or has nothing left to write and no caller that could still send to it. */
  ghost predicate Spent(w: World, p: Pid) {
    && p < |w.procs| && (w.procs[p].reader.Exiting? || w.procs[p].reader.Gone?)
    && (w.procs[p].writer.Dead? || w.procs[p].writer.Closing?
        || (w.procs[p].writer.Writing? && w.procs[p].queue == [] && w.s.tx != Some(p)
            && forall c | 0 <= c < |w.calls| :: w.calls[c] != Cloned(p) && w.calls[c] != Registered(p)))
  }

  predicate TakesOut(e: Event, p: Pid) {
    (e.Failed? || e.Answered?) && e.actor == p
  }

  lemma SpentCall(w: World, c: CallId, expire: bool, p: Pid)
    requires Spent(w, p) && c < |w.calls|
    ensures Spent(StepCall(w, c, expire), p)
  {
    if w.calls[c].Registered? && w.calls[c].p != p {
      assert StepCall(w, c, expire).procs[p] == w.procs[p];
    }
  }

  lemma SpentWriter(w: World, q: Pid, result: WriteResult, p: Pid)
    requires Spent(w, p) && q < |w.procs|
    ensures Spent(StepWriter(w, q, result), p)
  {
    if q != p {
      assert StepWriter(w, q, result).procs[p] == w.procs[p];
    }
  }

  lemma SpentReader(w: World, q: Pid, p: Pid)
    requires Spent(w, p) && q < |w.procs|
    ensures Spent(StepReader(w, q), p)
  {
    if q != p {
      assert StepReader(w, q).procs[p] == w.procs[p];
    }
  }

  lemma SpentStarter(w: World, ok: bool, p: Pid)
    requires Spent(w, p) && SlotsInv(w)
    ensures Spent(StepStarter(w, ok), p)
  {
    assert StepStarter(w, ok).procs[p] == w.procs[p];
  }

  lemma SpentStep(w: World, a: Action, p: Pid)
    requires Spent(w, p) && SlotsInv(w)
    ensures Spent(Step(w, a), p)
  {
    match a
    case StartStep(ok) => SpentStarter(w, ok, p);
    case CallStep(c, expire) => if c < |w.calls| { SpentCall(w, c, expire, p); }
    case ReaderStep(q) => if q < |w.procs| { SpentReader(w, q, p); }
    case WriterStep(q, result) => if q < |w.procs| { SpentWriter(w, q, result, p); }
    case _ =>
  }

  /** What a section adds to the history. */
  ghost predicate AddsSilently(w: World, w': World, p: Pid) {
    w.log <= w'.log && forall k | |w.log| <= k < |w'.log| :: !TakesOut(w'.log[k], p)
  }

  lemma SilentCall(w: World, c: CallId, expire: bool, p: Pid)
    requires c < |w.calls|
    ensures AddsSilently(w, StepCall(w, c, expire), p)
  {
  }

  lemma SilentLoops(w: World, q: Pid, result: WriteResult, p: Pid)
    requires Spent(w, p) && q < |w.procs|
    ensures AddsSilently(w, StepReader(w, q), p)
    ensures AddsSilently(w, StepWriter(w, q, result), p)
  {
  }

  lemma SpentIsSilent(w: World, a: Action, p: Pid)
    requires Spent(w, p)
    ensures AddsSilently(w, Step(w, a), p)
  {
    match a
    case StartStep(ok) => StarterLogs(w, ok);
    case CallStep(c, expire) => if c < |w.calls| { SilentCall(w, c, expire, p); }
    case ReaderStep(q) => if q < |w.procs| { SilentLoops(w, q, Written, p); }
    case WriterStep(q, result) => if q < |w.procs| { SilentLoops(w, q, result, p); }
    case _ =>
  }

  lemma {:induction false} StaysSpent(actions: seq<Action>, more: seq<Action>, p: Pid)
    requires Spent(Run(actions), p)
    ensures Spent(Run(actions + more), p) && Run(actions).log <= Run(actions + more).log
    ensures forall k | |Run(actions).log| <= k < |Run(actions + more).log| :: !TakesOut(Run(actions + more).log[k], p)
    decreases |more|
  {
    if more == [] {
      assert actions + more == actions;
    } else {
      var front, last := more[..|more| - 1], more[|more| - 1];
      StaysSpent(actions, front, p);
      OwnHolds(actions + front);
      assert actions + more == (actions + front) + [last];
      RunSnoc(actions + front, last);
      SpentStep(Run(actions + front), last, p);
      SpentIsSilent(Run(actions + front), last, p);
    }
  }

  /** So a call registered after the loops of a process have made their last fail_all is never failed, nor
      answered, by that process. */
  lemma SpentFailsNoLaterCall(actions: seq<Action>, more: seq<Action>, p: Pid, c: CallId, k: nat)
    requires Spent(Run(actions), p)
    requires c >= |Run(actions).calls| || Run(actions).calls[c].Cloned?
    requires k < |Run(actions + more).log| && RepliesTo(Run(actions + more).log[k], c)
    ensures Run(actions + more).log[k].actor != p
  {
    StaysSpent(actions, more, p);
    if k < |Run(actions).log| {
      CallsHold(actions, c);
      assert Run(actions).log[k] == Run(actions + more).log[k];
      ConcernedInStory(Run(actions).log, c, k);
    }
  }

  lemma {:induction false} ConcernedInStory(log: seq<Event>, c: CallId, k: nat)
    requires k < |log| && Concerns(log[k], c)
    ensures Story(log, c) != []
    decreases |log|
  {
    if k < |log| - 1 {
      ConcernedInStory(log[..|log| - 1], c, k);
    }
  }

  lemma RunSnoc(actions: seq<Action>, a: Action)
    ensures Run(actions + [a]) == Step(Run(actions), a)
  {
    assert (actions + [a])[..|actions|] == actions;
  }

  // ---------------------------------------------------------------- calls to a process that is going away

  predicate ReaderEnded(w: World, p: Pid) {
    p < |w.procs| && (w.procs[p].reader.Exiting? || w.procs[p].reader.Gone?)
  }

  predicate WriterFailedAll(w: World, p: Pid) {
    p < |w.procs| && (w.procs[p].writer.Closing? || w.procs[p].writer.Dead?)
  }

  /** What a section adds to the history once the reader of `p` has ended. */
  ghost predicate AddsFailures(w: World, w': World, p: Pid) {
    && w.log <= w'.log && ReaderEnded(w', p)
    && (WriterFailedAll(w, p) ==> WriterFailedAll(w', p))
    && forall k | |w.log| <= k < |w'.log| && TakesOut(w'.log[k], p) :: w'.log[k].Failed? && !WriterFailedAll(w, p)
  }

  lemma EndedReader(w: World, q: Pid, p: Pid)
    requires ReaderEnded(w, p) && q < |w.procs|
    ensures AddsFailures(w, StepReader(w, q), p)
  {
    if q != p {
      assert StepReader(w, q).procs[p] == w.procs[p];
    }
  }

  lemma EndedWriter(w: World, q: Pid, result: WriteResult, p: Pid)
    requires ReaderEnded(w, p) && q < |w.procs|
    ensures AddsFailures(w, StepWriter(w, q, result), p)
  {
    if q != p {
      assert StepWriter(w, q, result).procs[p] == w.procs[p];
    }
  }

  lemma EndedStarter(w: World, ok: bool, p: Pid)
    requires ReaderEnded(w, p) && SlotsInv(w)
    ensures AddsFailures(w, StepStarter(w, ok), p)
  {
    StarterLogs(w, ok);
    assert StepStarter(w, ok).procs[p] == w.procs[p];
  }

  lemma EndedCall(w: World, c: CallId, expire: bool, p: Pid)
    requires ReaderEnded(w, p) && c < |w.calls|
    ensures AddsFailures(w, StepCall(w, c, expire), p)
  {
    assert StepCall(w, c, expire).procs[p].(queue := []) == w.procs[p].(queue := []);
  }

  lemma EndedStep(w: World, a: Action, p: Pid)
    requires ReaderEnded(w, p) && SlotsInv(w)
    ensures AddsFailures(w, Step(w, a), p)
  {
    match a
    case StartStep(ok) => EndedStarter(w, ok, p);
    case CallStep(c, expire) => if c < |w.calls| { EndedCall(w, c, expire, p); }
    case ReaderStep(q) => if q < |w.procs| { EndedReader(w, q, p); }
    case WriterStep(q, result) => if q < |w.procs| { EndedWriter(w, q, result, p); }
    case _ =>
  }

  /** Once its reader has ended a process answers nothing any more, and takes calls out of the table only until its
      writer has failed all. */
  lemma {:induction false} EndedReaderOnlyFails(actions: seq<Action>, more: seq<Action>, p: Pid)
    requires ReaderEnded(Run(actions), p)
    ensures AddsFailures(Run(actions), Run(actions + more), p)
    decreases |more|
  {
    if more == [] {
      assert actions + more == actions;
    } else {
      var front, last := more[..|more| - 1], more[|more| - 1];
      EndedReaderOnlyFails(actions, front, p);
      OwnHolds(actions + front);
      assert actions + more == (actions + front) + [last];
      RunSnoc(actions + front, last);
      EndedStep(Run(actions + front), last, p);
      FailuresAdd(Run(actions), Run(actions + front), Run(actions + more), p);
    }
  }

  lemma FailuresAdd(w: World, w1: World, w2: World, p: Pid)
    requires AddsFailures(w, w1, p) && AddsFailures(w1, w2, p)
    ensures AddsFailures(w, w2, p)
  {
    assert forall k | 0 <= k < |w1.log| :: w2.log[k] == w1.log[k];
  }

  predicate Waits(call: Call) {
    call.Sent? || call.Expired? || call.Returned?
  }

  /** A call that was sent gives up on a timeout only. */
  ghost predicate GivesUpLate(w: World, w': World, c: CallId) {
    && c < |w'.calls| && Waits(w'.calls[c]) && w.log <= w'.log
    && forall k | |w.log| <= k < |w'.log| && w'.log[k].TookBack? && w'.log[k].call == c :: w'.log[k].outcome == TimedOut
  }

  lemma SentStep(w: World, a: Action, c: CallId)
    requires c < |w.calls| && Waits(w.calls[c])
    ensures GivesUpLate(w, Step(w, a), c)
  {
    match a
    case StartStep(ok) => StarterLogs(w, ok);
    case CallStep(d, expire) => if d < |w.calls| && d != c { OtherLogs(w, d, expire, c); }
    case _ =>
  }

  lemma {:induction false} SentGivesUpLate(actions: seq<Action>, more: seq<Action>, c: CallId)
    requires c < |Run(actions).calls| && Waits(Run(actions).calls[c])
    ensures GivesUpLate(Run(actions), Run(actions + more), c)
    decreases |more|
  {
    if more == [] {
      assert actions + more == actions;
    } else {
      var front, last := more[..|more| - 1], more[|more| - 1];
      SentGivesUpLate(actions, front, c);
      assert actions + more == (actions + front) + [last];
      RunSnoc(actions + front, last);
      SentStep(Run(actions + front), last, c);
      assert forall k | 0 <= k < |Run(actions + front).log| ::
          Run(actions + more).log[k] == Run(actions + front).log[k];
    }
  }

  /** What can still resolve a call that waits for its reply: its own timeout, or a process that is not spent; and a
      process whose reader has ended can only fail it. */
  lemma WhatResolves(actions: seq<Action>, more: seq<Action>, c: CallId, k: nat)
    requires c < |Run(actions).calls| && Run(actions).calls[c].Sent?
    requires |Run(actions).log| <= k < |Run(actions + more).log| && Removes(Run(actions + more).log[k], c)
    ensures var w, e := Run(actions), Run(actions + more).log[k];
            || e == TookBack(c, TimedOut)
            || (RepliesTo(e, c) && !Spent(w, e.actor) && (ReaderEnded(w, e.actor) ==> e.Failed?))
  {
    var w, e := Run(actions), Run(actions + more).log[k];
    SentGivesUpLate(actions, more, c);
    if RepliesTo(e, c) {
      if Spent(w, e.actor) {
        StaysSpent(actions, more, e.actor);
      }
      if ReaderEnded(w, e.actor) {
        EndedReaderOnlyFails(actions, more, e.actor);
      }
    }
  }

  ghost predicate ActorsKnown(w: World) {
    forall k | 0 <= k < |w.log| && (w.log[k].Failed? || w.log[k].Answered?) :: w.log[k].actor < |w.procs|
  }

  lemma ActorsLoops(w: World, q: Pid, result: WriteResult)
    requires ActorsKnown(w) && q < |w.procs|
    ensures ActorsKnown(StepReader(w, q)) && ActorsKnown(StepWriter(w, q, result))
  {
  }

  lemma ActorsCall(w: World, c: CallId, expire: bool)
    requires ActorsKnown(w) && c < |w.calls|
    ensures ActorsKnown(StepCall(w, c, expire))
  {
  }

  lemma ActorsStarter(w: World, ok: bool)
    requires ActorsKnown(w)
    ensures ActorsKnown(StepStarter(w, ok))
  {
    StarterLogs(w, ok);
    assert forall k | 0 <= k < |w.log| :: StepStarter(w, ok).log[k] == w.log[k];
  }

  lemma ActorsStep(w: World, a: Action)
    requires ActorsKnown(w)
    ensures ActorsKnown(Step(w, a))
  {
    match a
    case StartStep(ok) => ActorsStarter(w, ok);
    case CallStep(c, expire) => if c < |w.calls| { ActorsCall(w, c, expire); }
    case ReaderStep(q) => if q < |w.procs| { ActorsLoops(w, q, Written); }
    case WriterStep(q, result) => if q < |w.procs| { ActorsLoops(w, q, result); }
    case _ =>
  }

  lemma {:induction false} ActorsHold(actions: seq<Action>)
    ensures ActorsKnown(Run(actions))
  {
    if actions != [] {
      ActorsHold(actions[..|actions| - 1]);
      ActorsStep(Run(actions[..|actions| - 1]), actions[|actions| - 1]);
    }
  }

  /** So when every process is spent, and until another is started, only its timeout ends such a call. */
  lemma StrandedTimesOut(actions: seq<Action>, more: seq<Action>, c: CallId, k: nat)
    requires c < |Run(actions).calls| && Run(actions).calls[c].Sent?
    requires forall p | 0 <= p < |Run(actions).procs| :: Spent(Run(actions), p)
    requires |Run(actions + more).procs| == |Run(actions).procs|
    requires |Run(actions).log| <= k < |Run(actions + more).log| && Removes(Run(actions + more).log[k], c)
    ensures Run(actions + more).log[k] == TookBack(c, TimedOut)
  {
    WhatResolves(actions, more, c, k);
    ActorsHold(actions + more);
  }

  // ---------------------------------------------------------------- a start that waits for itself

  /** The handshake of a start finds no sender, and then waits for the lock its own start holds, exactly if the reader
      of the process just started has already cleaned up. */
  lemma StuckIff(actions: seq<Action>, p: Pid, ok: bool)
    requires Run(actions).starter == Handshake(p)
    ensures var w, w' := Run(actions), Run(actions + [StartStep(ok)]);
            && p < |w.procs| && w.s.tx == (if w.procs[p].reader.Gone? then None else Some(p))
            && w'.starter == (if w.procs[p].reader.Gone? then Stuck(p) else Validating(p))
  {
    OwnHolds(actions);
    RunSnoc(actions, StartStep(ok));
  }

  /** Nothing is sent or started from then on. */
  ghost predicate StillStuck(w: World, w': World) {
    && w'.starter == w.starter && w'.s.tx == None
    && |w'.procs| == |w.procs| && |w'.calls| == |w.calls|
  }

  lemma StuckStep(w: World, a: Action)
    requires w.starter.Stuck? && w.s.tx == None
    ensures StillStuck(w, Step(w, a))
  {
  }

  lemma StuckHasNoSender(actions: seq<Action>)
    requires Run(actions).starter.Stuck?
    ensures Run(actions).s.tx == None
  {
    OwnHolds(actions);
  }

  /** It waits for good: in every continuation no process is started and no call is made. */
  lemma {:induction false} StuckForever(actions: seq<Action>, more: seq<Action>)
    requires Run(actions).starter.Stuck?
    ensures StillStuck(Run(actions), Run(actions + more))
    decreases |more|
  {
    if more == [] {
      StuckHasNoSender(actions);
      assert actions + more == actions;
    } else {
      var front, last := more[..|more| - 1], more[|more| - 1];
      StuckForever(actions, front);
      assert actions + more == (actions + front) + [last];
      RunSnoc(actions + front, last);
      StuckStep(Run(actions + front), last);
    }
  }

  // ---------------------------------------------------------------- runs

  /** Process 0 has been started, its handshake is about to be made. */
  lemma ReachHandshake() returns (a4: seq<Action>)
    ensures Run(a4) == World(Shared(Some(0), Some(0), {}), Handshake(0), [Proc(Reading, Writing, [])], [],
                             map[], map[], [])
  {
    var a1 := [] + [StartStep(true)];
    var a2 := a1 + [StartStep(true)];
    var a3 := a2 + [StartStep(true)];
    a4 := a3 + [StartStep(true)];
    RunSnoc([], StartStep(true));
    RunSnoc(a1, StartStep(true));
    RunSnoc(a2, StartStep(true));
    assert Run(a3).starter == TxSet(0) && Run(a3).procs == [Proc(Unborn, Writing, [])];
    RunSnoc(a3, StartStep(true));
    assert Run(a4).procs == [Proc(Reading, Writing, [])];
  }

  /** Process 0 has failed validation and been killed, but its reader has not noticed yet. */
  const HALF_DEAD := World(Shared(None, Some(0), {}), Free, [Proc(Reading, Writing, [])], [], map[], map[],
                           [Cleared(0, 0), Killed(0, 0)])

  lemma ReachHalfDead() returns (a7: seq<Action>)
    ensures Run(a7) == HALF_DEAD
  {
    var a4 := ReachHandshake();
    var a5 := a4 + [StartStep(true)];
    var a6 := a5 + [StartStep(false)];
    a7 := a6 + [StartStep(true)];
    RunSnoc(a4, StartStep(true));
    assert Run(a5).starter == Validating(0);
    RunSnoc(a5, StartStep(false));
    RunSnoc(a6, StartStep(true));
  }

  /** Process 1 has been started in its place. */
  const RESTARTED := World(Shared(Some(1), Some(1), {}), Free, [Proc(Reading, Writing, []), Proc(Reading, Writing, [])],
                           [], map[], map[], [Cleared(0, 0), Killed(0, 0), Replaced(1, 0)])

  lemma ReachRestarted() returns (b5: seq<Action>)
    ensures Run(b5) == RESTARTED
  {
    var a6 := ReachHalfDead();
    var b1 := a6 + [StartStep(true)];
    var b2 := b1 + [StartStep(true)];
    var b3 := b2 + [StartStep(true)];
    var b4 := b3 + [StartStep(true)];
    b5 := b4 + [StartStep(true)] + [StartStep(true)];
    RunSnoc(a6, StartStep(true));
    RunSnoc(b1, StartStep(true));
    assert Run(b2) == HALF_DEAD.(starter := Spawning);
    RunSnoc(b2, StartStep(true));
    assert Run(b3) == HALF_DEAD.(s := Shared(Some(1), Some(0), {}), starter := TxSet(1),
                                 procs := [Proc(Reading, Writing, []), Proc(Unborn, Writing, [])]);
    RunSnoc(b3, StartStep(true));
    assert Run(b4) == RESTARTED.(starter := Handshake(1));
    RunSnoc(b4, StartStep(true));
    RunSnoc(b4 + [StartStep(true)], StartStep(true));
  }

  lemma CallToRestarted() returns (c3: seq<Action>)
    ensures var w := Run(c3);
            w.s == Shared(Some(1), Some(1), {0}) && w.calls == [Sent(1)] && w.mail == map[] && w.inbox == map[]
            && |w.procs| == 2 && w.procs[0].reader.Reading?
  {
    var b5 := ReachRestarted();
    var c1 := b5 + [NewCall];
    var c2 := c1 + [CallStep(0, false)];
    c3 := c2 + [CallStep(0, false)];
    RunSnoc(b5, NewCall);
    var w1 := RESTARTED.(calls := [Cloned(1)]);
    assert Run(c1) == w1;
    RunSnoc(c1, CallStep(0, false));
    var w2 := w1.(s := Shared(Some(1), Some(1), {0}), calls := [Registered(1)], log := w1.log + [Entered(0, 1)]);
    assert Run(c2) == w2 by {
      assert {} + {0} == {0};
      assert w1.calls[0 := Registered(1)] == w2.calls;
    }
    RunSnoc(c2, CallStep(0, false));
    assert w2.calls[0 := Sent(1)] == [Sent(1)];
    assert StepCall(w2, 0, false).calls == [Sent(1)];
  }

  /** The identity guard covers the slots, not the table: when the reader of a process that failed
      validation ends, it also fails a call sent to the process started after it. */
  lemma OldReaderFailsNewCall()
    ensures exists actions ::
      var w := Run(actions);
      && w.s.tx == Some(1) && w.s.child == Some(1)
      && w.calls == [Returned(Replied(Failure))]
  {
    var c3 := CallToRestarted();
    var c4 := c3 + [ReaderStep(0)];
    var c5 := c4 + [Deliver(0)];
    var c6 := c5 + [CallStep(0, false)];
    RunSnoc(c3, ReaderStep(0));
    assert 0 in Run(c4).mail && Run(c4).mail[0] == Failure;
    RunSnoc(c4, Deliver(0));
    RunSnoc(c5, CallStep(0, false));
    assert Run(c6).calls == [Returned(Replied(Failure))];
  }

  /** The process dies before its start makes the handshake call: the start waits for itself. */
  lemma StartWaitsForItself()
    ensures exists actions :: Run(actions).starter == Stuck(0)
  {
    var a4 := ReachHandshake();
    var a5 := a4 + [ReaderStep(0)];
    var a6 := a5 + [ReaderStep(0)];
    var a7 := a6 + [StartStep(true)];
    RunSnoc(a4, ReaderStep(0));
    assert Run(a5).procs == [Proc(Exiting, Writing, [])] && Run(a5).s.tx == Some(0);
    RunSnoc(a5, ReaderStep(0));
    assert Run(a6).s.tx == None && Run(a6).starter == Handshake(0);
    RunSnoc(a6, StartStep(true));
  }

  /** Process 0 runs, and its reader has met the end of its output but not cleaned up yet. */
  lemma ReachExiting() returns (a7: seq<Action>)
    ensures Run(a7) == World(Shared(Some(0), Some(0), {}), Free, [Proc(Exiting, Writing, [])], [], map[], map[],
                             [Failed(0, {}, true)])
  {
    var a4 := ReachHandshake();
    var a5 := a4 + [StartStep(true)];
    var a6 := a5 + [StartStep(true)];
    a7 := a6 + [ReaderStep(0)];
    RunSnoc(a4, StartStep(true));
    RunSnoc(a5, StartStep(true));
    assert Run(a6) == World(Shared(Some(0), Some(0), {}), Free, [Proc(Reading, Writing, [])], [], map[], map[], []);
    RunSnoc(a6, ReaderStep(0));
    assert Run(a7).mail == map[] && Run(a7).procs == [Proc(Exiting, Writing, [])];
    var none: set<CallId> := {};
    assert none * none == none && none - none == none && Run(a7).log == [Failed(0, none, true)];
  }

  lemma SendToExiting() returns (b3: seq<Action>)
    ensures var w := Run(b3);
            && w.s == Shared(Some(0), Some(0), {0}) && w.procs == [Proc(Exiting, Writing, [0])]
            && w.calls == [Sent(0)] && w.inbox == map[]
  {
    var a7 := ReachExiting();
    var b1 := a7 + [NewCall];
    var b2 := b1 + [CallStep(0, false)];
    b3 := b2 + [CallStep(0, false)];
    RunSnoc(a7, NewCall);
    assert Run(b1).calls == [Cloned(0)];
    RunSnoc(b1, CallStep(0, false));
    assert Run(b2).calls == [Registered(0)] && Run(b2).s.pending == {} + {0} == {0};
    RunSnoc(b2, CallStep(0, false));
    assert Run(b3).calls == [Sent(0)] && [] + [0] == [0];
  }

  /** A call sent between the two sections at the end of a reader, and written to the pipe of a process already dead:
      everything is spent, and the call is still in the table. It times out. */
  lemma CallIsStranded()
    ensures exists actions ::
      var w := Run(actions);
      && w.calls == [Sent(0)] && w.s.pending == {0} && |w.procs| == 1 && Spent(w, 0)
  {
    var b3 := SendToExiting();
    var b4 := b3 + [WriterStep(0, Written)];
    var b5 := b4 + [ReaderStep(0)];
    RunSnoc(b3, WriterStep(0, Written));
    assert [0][1..] == [];
    assert Run(b4).procs == [Proc(Exiting, Writing, [])];
    RunSnoc(b4, ReaderStep(0));
    assert Run(b5).procs == [Proc(Gone, Writing, [])] && Run(b5).s.tx == None && Run(b5).calls == [Sent(0)];
  }

  lemma MayTimeOut(actions: seq<Action>, c: CallId)
    requires c < |Run(actions).calls| && Run(actions).calls[c].Sent? && c in Run(actions).s.pending
    ensures var w := Run(actions + [CallStep(c, true)] + [CallStep(c, true)]);
            c < |w.calls| && w.calls[c] == Returned(TimedOut)
  {
    CallsHold(actions, c);
    RunSnoc(actions, CallStep(c, true));
    assert Run(actions + [CallStep(c, true)]).calls[c] == Expired;
    RunSnoc(actions + [CallStep(c, true)], CallStep(c, true));
  }
}
