/** The SSH attempt-generation protocol: one counter per session id decides which of
    many concurrent connects may publish its session. */
module SshAttempts {
  import opened Wrappers

  type Id = string

  const U64_MAX: int := 0xFFFF_FFFF_FFFF_FFFF

  type Gen = g: int | 0 <= g <= U64_MAX

  /** The tag of a bastion pty's write channel. */
  const BASTION_TAG: Gen := 0

  /** `wrapping_add(1).max(1)` on a 64-bit counter. */
  function NextGen(g: Gen): (n: Gen)
    ensures 1 <= n
    ensures g < n <==> g < U64_MAX
  {
    var sum := if g == U64_MAX then 0 else g + 1;
    if sum < 1 then 1 else sum
  }

  /** `wrapping_sub(1)`. */
  function PrevGen(g: Gen): Gen {
    if g == 0 then U64_MAX else g - 1
  }

  /** The shared tables. A session is represented by the generation of the connect that built it,
      a write channel by its tag. */
  datatype Tables = Tables(attempts: map<Id, Gen>, sessions: map<Id, Gen>, channels: map<Id, Gen>)

  function Lookup(m: map<Id, Gen>, id: Id): Option<Gen> {
    if id in m then Some(m[id]) else None
  }

  function BeginAttempt(s: Tables, id: Id): (Tables, Gen) {
    var g := NextGen(if id in s.attempts then s.attempts[id] else 0);
    (s.(attempts := s.attempts[id := g]), g)
  }

  function InvalidateIfCurrent(s: Tables, id: Id, guard: Gen): (Tables, Option<Gen>) {
    if Lookup(s.attempts, id) != Some(guard) then (s, None)
    else (s.(attempts := s.attempts[id := NextGen(guard)]), Some(NextGen(guard)))
  }

  function RemoveChannelFor(s: Tables, id: Id, g: Gen): Tables {
    if Lookup(s.channels, id) == Some(g) then s.(channels := s.channels - {id}) else s
  }

  function InsertChannelAt(s: Tables, id: Id, tag: Gen): Tables {
    s.(channels := s.channels[id := tag])
  }

  /** The removal at the end of a bastion pty, without a guard. */
  function RemoveChannelOf(s: Tables, id: Id): Tables {
    s.(channels := s.channels - {id})
  }

  function RemoveSessionOf(s: Tables, id: Id): Tables {
    s.(sessions := s.sessions - {id})
  }

  function InstallSession(s: Tables, id: Id, g: Gen): (Tables, bool) {
    if Lookup(s.attempts, id) == Some(g) then (s.(sessions := s.sessions[id := g]), true) else (s, false)
  }

  /** The manager's tables as fields; each method is one critical section. */
  class SshManager {
    var attempts: map<Id, Gen>
    var sessions: map<Id, Gen>
    var channels: map<Id, Gen>

    ghost function Shared(): Tables
      reads this
    {
      Tables(attempts, sessions, channels)
    }

    constructor ()
      ensures Shared() == Tables(map[], map[], map[])
    {
      attempts, sessions, channels := map[], map[], map[];
    }

    method Begin(id: Id) returns (next: Gen)
      modifies this`attempts
      ensures (Shared(), next) == BeginAttempt(old(Shared()), id)
    {
      var current := 0;
      if id in attempts {
        current := attempts[id];
      }
      next := NextGen(current);
      attempts := attempts[id := next];
    }

    method CurrentAttempt(id: Id) returns (r: Option<Gen>)
      ensures r == Lookup(Shared().attempts, id)
    {
      r := Lookup(attempts, id);
    }

    method IsCurrentAttempt(id: Id, g: Gen) returns (current: bool)
      ensures current <==> Lookup(Shared().attempts, id) == Some(g)
    {
      current := id in attempts && attempts[id] == g;
    }

    method InvalidateAttemptIfCurrent(id: Id, guard: Gen) returns (r: Option<Gen>)
      modifies this`attempts
      ensures (Shared(), r) == InvalidateIfCurrent(old(Shared()), id, guard)
    {
      if id !in attempts || attempts[id] != guard {
        return None;
      }
      var next := NextGen(guard);
      attempts := attempts[id := next];
      r := Some(next);
    }

    method RemoveChannelForAttempt(id: Id, g: Gen)
      modifies this`channels
      ensures Shared() == RemoveChannelFor(old(Shared()), id, g)
    {
      if id in channels && channels[id] == g {
        channels := channels - {id};
      }
    }

    method InsertChannel(id: Id, tag: Gen)
      modifies this`channels
      ensures Shared() == InsertChannelAt(old(Shared()), id, tag)
    {
      channels := channels[id := tag];
    }

    method RemoveChannel(id: Id)
      modifies this`channels
      ensures Shared() == RemoveChannelOf(old(Shared()), id)
    {
      channels := channels - {id};
    }

    method RemoveSession(id: Id)
      modifies this`sessions
      ensures Shared() == RemoveSessionOf(old(Shared()), id)
    {
      sessions := sessions - {id};
    }

    /** The tail of connect_session, both locks held. */
    method Install(id: Id, g: Gen) returns (installed: bool)
      modifies this`sessions
      ensures (Shared(), installed) == InstallSession(old(Shared()), id, g)
    {
      if id !in attempts || attempts[id] != g {
        return false;
      }
      sessions := sessions[id := g];
      installed := true;
    }
  }

  /** A concurrent task, by the critical section it will enter next. */
  datatype Task =
    | Connecting(id: Id, gen: Gen, interactive: bool) // attempt begun, network I/O in flight
    | Admitted(id: Id, gen: Gen)                      // still current after authentication: opening a shell
    | Ready(id: Id, gen: Gen)                         // about to publish the session
    | Refused(id: Id, gen: Gen)                       // publication refused: about to remove its channel
    | Shell(id: Id, gen: Gen)                         // the detached reader of an open shell
    | Leaving(id: Id, guard: Option<Gen>)             // disconnect, current generation read
    | Cleared(id: Id, gen: Gen)                       // disconnect, session entry removed
    | Invalidated(id: Id, next: Gen)                  // disconnect, generation advanced to `next`
    | Dropping(id: Id)                                // drop_session, session entry removed
    | Bastion(id: Id)                                 // a bastion pty holding the write channel
    | Finished

  datatype Event =
    | Bumped(id: Id, gen: Gen, connect: bool)
    | Installed(id: Id, gen: Gen)

  /** What happened to the session and channel entries, and in which task. */
  datatype Mark =
    | Published(id: Id, gen: Gen)
    | Unpublished(id: Id, task: nat)           // made absent, whether or not it was there
    | Opened(id: Id, tag: Gen, task: nat)      // by the shell reader or bastion `task`
    | Shut(id: Id, tag: Gen, task: nat)        // a guarded removal that found its tag
    | Cut(id: Id, task: nat)                   // the unguarded removal of a bastion that found an entry

  /** Tables, tasks, the history of counter moves and publications, and that of the entries. */
  datatype World = World(s: Tables, tasks: seq<Task>, log: seq<Event>, trace: seq<Mark>)

  datatype Action =
    | Connect(id: Id, interactive: bool)
    | Disconnect(id: Id)
    | Drop(id: Id)
    | OpenBastion(id: Id)
    | Advance(task: nat, ok: bool) // `ok` is the outcome of the I/O the task was waiting for

  const INIT := World(Tables(map[], map[], map[]), [], [], [])

  function Step(w: World, a: Action): World {
    match a
    case Connect(id, interactive) =>
      var (s, g) := BeginAttempt(w.s, id);
      w.(s := s, tasks := w.tasks + [Connecting(id, g, interactive)], log := w.log + [Bumped(id, g, true)])
    case Disconnect(id) =>
      w.(tasks := w.tasks + [Leaving(id, Lookup(w.s.attempts, id))])
    case Drop(id) =>
      w.(s := RemoveSessionOf(w.s, id), tasks := w.tasks + [Dropping(id)],
         trace := w.trace + [Unpublished(id, |w.tasks|)])
    case OpenBastion(id) =>
      w.(s := InsertChannelAt(w.s, id, BASTION_TAG), tasks := w.tasks + [Bastion(id)],
         trace := w.trace + [Opened(id, BASTION_TAG, |w.tasks|)])
    case Advance(t, ok) =>
      if t < |w.tasks| then AdvanceTask(w, t, ok) else w
  }

  function AdvanceTask(w: World, t: nat, ok: bool): World
    requires t < |w.tasks|
  {
    match w.tasks[t]
    case Connecting(id, g, interactive) =>
      if !ok || Lookup(w.s.attempts, id) != Some(g) then w.(tasks := w.tasks[t := Finished])
      else w.(tasks := w.tasks[t := if interactive then Admitted(id, g) else Ready(id, g)])
    case Admitted(id, g) =>
      if !ok then w.(tasks := w.tasks[t := Finished])
      else w.(s := InsertChannelAt(w.s, id, g), tasks := w.tasks[t := Ready(id, g)] + [Shell(id, g)],
              trace := w.trace + [Opened(id, g, |w.tasks|)])
    case Ready(id, g) =>
      var (s, installed) := InstallSession(w.s, id, g);
      if installed
      then w.(s := s, tasks := w.tasks[t := Finished], log := w.log + [Installed(id, g)],
              trace := w.trace + [Published(id, g)])
      else w.(tasks := w.tasks[t := Refused(id, g)])
    case Refused(id, g) => CloseChannel(w, t, id, g)
    case Shell(id, g) => CloseChannel(w, t, id, g)
    case Leaving(id, guard) =>
      w.(s := RemoveSessionOf(w.s, id),
         tasks := w.tasks[t := if guard.Some? then Cleared(id, guard.value) else Finished],
         trace := w.trace + [Unpublished(id, t)])
    case Cleared(id, g) =>
      var (s, next) := InvalidateIfCurrent(w.s, id, g);
      if next.Some?
      then w.(s := s, tasks := w.tasks[t := Invalidated(id, next.value)],
              log := w.log + [Bumped(id, next.value, false)])
      else w.(tasks := w.tasks[t := Finished])
    case Invalidated(id, next) => CloseChannel(w, t, id, PrevGen(next))
    case Dropping(id) =>
      var (s, g) := BeginAttempt(w.s, id);
      w.(s := s, tasks := w.tasks[t := Finished], log := w.log + [Bumped(id, g, false)])
    case Bastion(id) =>
      w.(s := RemoveChannelOf(w.s, id), tasks := w.tasks[t := Finished],
         trace := w.trace + if id in w.s.channels then [Cut(id, t)] else [])
    case Finished => w
  }

  /** The guarded removal that ends task `t`. */
  function CloseChannel(w: World, t: nat, id: Id, g: Gen): World
    requires t < |w.tasks|
  {
    w.(s := RemoveChannelFor(w.s, id, g), tasks := w.tasks[t := Finished],
       trace := w.trace + if Lookup(w.s.channels, id) == Some(g) then [Shut(id, g, t)] else [])
  }

  /** The world after any interleaving of sections. */
  function Run(actions: seq<Action>): World {
    if actions == [] then INIT
    else Step(Run(actions[..|actions| - 1]), actions[|actions| - 1])
  }

  /** How often the counter of `id` has moved. */
  function Bumps(log: seq<Event>, id: Id): nat {
    if log == [] then 0
    else Bumps(log[..|log| - 1], id) + if IsBump(log[|log| - 1], id) then 1 else 0
  }

  predicate IsBump(e: Event, id: Id) {
    e.Bumped? && e.id == id
  }

  lemma BumpsSnoc(log: seq<Event>, e: Event, id: Id)
    ensures Bumps(log + [e], id) == Bumps(log, id) + if IsBump(e, id) then 1 else 0
  {
    assert (log + [e])[..|log|] == log;
  }

  lemma {:induction false} BumpsMonotone(log: seq<Event>, i: nat, id: Id)
    requires i <= |log|
    ensures Bumps(log[..i], id) <= Bumps(log, id)
    ensures Bumps(log[..i], id) == Bumps(log, id) ==> forall k | i <= k < |log| :: !IsBump(log[k], id)
    decreases |log|
  {
    if i == |log| {
      assert log[..i] == log;
    } else {
      var n := |log| - 1;
      BumpsMonotone(log[..n], i, id);
      assert log[..n][..i] == log[..i];
      forall k | i <= k < |log| && Bumps(log[..i], id) == Bumps(log, id)
        ensures !IsBump(log[k], id)
      {
        if k < n {
          assert log[..n][k] == log[k];
        }
      }
    }
  }

  ghost predicate Before(t: Task, id: Id) {
    (t.Connecting? || t.Admitted? || t.Ready?) && t.id == id
  }

  ghost predicate Began(log: seq<Event>, id: Id, g: Gen) {
    exists k | 0 <= k < |log| :: log[k] == Bumped(id, g, true)
  }

  /** Every event of `id` carries the value of the counter when it happened. */
  ghost predicate LogFaithful(log: seq<Event>, id: Id) {
    forall i | 0 <= i < |log| && log[i].id == id ::
      EventFaithful(log[..i], log[i], id)
  }

  ghost predicate EventFaithful(past: seq<Event>, e: Event, id: Id) {
    if e.Bumped? then e.gen == Bumps(past, id) + 1
    else e.gen == Bumps(past, id) && Began(past, id, e.gen) && e !in past
  }

  ghost predicate CounterFaithful(w: World, id: Id) {
    Lookup(w.s.attempts, id) == if Bumps(w.log, id) == 0 then None else Some(Bumps(w.log, id))
  }

  ghost predicate TaskFaithful(t: Task, log: seq<Event>, id: Id) {
    match t
    case Connecting(i, g, _) => i == id ==> g <= Bumps(log, id) && Began(log, id, g) && Installed(id, g) !in log
    case Admitted(i, g) => i == id ==> g <= Bumps(log, id) && Began(log, id, g) && Installed(id, g) !in log
    case Ready(i, g) => i == id ==> g <= Bumps(log, id) && Began(log, id, g) && Installed(id, g) !in log
    case Refused(i, g) => i == id ==> 1 <= g <= Bumps(log, id)
    case Shell(i, g) => i == id ==> 1 <= g <= Bumps(log, id)
    case Leaving(i, guard) => i == id && guard.Some? ==> 1 <= guard.value <= Bumps(log, id)
    case Cleared(i, g) => i == id ==> 1 <= g <= Bumps(log, id)
    case Invalidated(i, f) => i == id ==> 2 <= f <= Bumps(log, id)
    case _ => true
  }

  ghost predicate TasksFaithful(w: World, id: Id) {
    && (forall t | 0 <= t < |w.tasks| :: TaskFaithful(w.tasks[t], w.log, id))
    && (forall t, u | 0 <= t < u < |w.tasks| && Before(w.tasks[t], id) && Before(w.tasks[u], id) ::
          w.tasks[t].gen != w.tasks[u].gen)
  }

  /** Nothing is tagged with a generation the counter has not reached. */
  ghost predicate TagsFaithful(w: World, id: Id) {
    && (id in w.s.sessions ==> w.s.sessions[id] <= Bumps(w.log, id))
    && (id in w.s.channels ==> w.s.channels[id] <= Bumps(w.log, id))
  }

  /** What every reachable world satisfies for an id whose counter has not wrapped. */
  ghost predicate Inv(w: World, id: Id) {
    Bumps(w.log, id) <= U64_MAX ==>
      && CounterFaithful(w, id)
      && LogFaithful(w.log, id)
      && TasksFaithful(w, id)
      && TagsFaithful(w, id)
  }

  lemma LogGrows(log: seq<Event>, e: Event, id: Id)
    requires LogFaithful(log, id)
    requires e.id == id ==> EventFaithful(log, e, id)
    ensures LogFaithful(log + [e], id)
  {
    var log' := log + [e];
    assert log'[..|log|] == log;
    forall i | 0 <= i < |log'| && log'[i].id == id
      ensures EventFaithful(log'[..i], log'[i], id)
    {
      if i < |log| {
        assert log'[..i] == log[..i];
      }
    }
  }

  /** An event leaves the standing of a task alone, unless it publishes that task's generation. */
  lemma TaskStands(t: Task, log: seq<Event>, e: Event, id: Id)
    requires TaskFaithful(t, log, id)
    requires Before(t, id) ==> e != Installed(id, t.gen)
    ensures TaskFaithful(t, log + [e], id)
  {
    BumpsSnoc(log, e, id);
    if Before(t, id) {
      var k :| 0 <= k < |log| && log[k] == Bumped(id, t.gen, true);
      assert (log + [e])[k] == Bumped(id, t.gen, true);
    }
  }

  /** A task that has not yet published cannot hold a generation the counter has yet to reach. */
  lemma TasksStand(w: World, e: Event, id: Id, t: nat, done: Task)
    requires TasksFaithful(w, id) && t < |w.tasks|
    requires TaskFaithful(done, w.log + [e], id)
    requires !Before(done, id)
    requires e.Installed? && e.id == id ==> Before(w.tasks[t], id) && w.tasks[t].gen == e.gen
    ensures TasksFaithful(w.(tasks := w.tasks[t := done], log := w.log + [e]), id)
  {
    var tasks' := w.tasks[t := done];
    forall u | 0 <= u < |tasks'|
      ensures TaskFaithful(tasks'[u], w.log + [e], id)
    {
      if u != t {
        TaskStands(w.tasks[u], w.log, e, id);
      }
    }
  }

  /** One section in which no event happens and one task moves on. */
  lemma QuietStep(w: World, w': World, id: Id, t: nat)
    requires Inv(w, id)
    requires w'.log == w.log && w'.s.attempts == w.s.attempts
    requires t < |w.tasks| == |w'.tasks| && w'.tasks == w.tasks[t := w'.tasks[t]]
    requires Bumps(w.log, id) <= U64_MAX ==> TagsFaithful(w', id) && TaskFaithful(w'.tasks[t], w.log, id)
    requires Before(w'.tasks[t], id) ==> Before(w.tasks[t], id) && w'.tasks[t].gen == w.tasks[t].gen
    ensures Inv(w', id)
  {
  }

  lemma SpawnStep(w: World, w': World, id: Id)
    requires Inv(w, id)
    requires w'.log == w.log && w'.s.attempts == w.s.attempts
    requires |w'.tasks| == |w.tasks| + 1 && w'.tasks[..|w.tasks|] == w.tasks
    requires Bumps(w.log, id) <= U64_MAX ==> TagsFaithful(w', id) && TaskFaithful(w'.tasks[|w.tasks|], w.log, id)
    requires !Before(w'.tasks[|w.tasks|], id)
    ensures Inv(w', id)
  {
    if Bumps(w.log, id) <= U64_MAX {
      var n := |w.tasks|;
      assert forall t | 0 <= t < n :: w'.tasks[t] == w.tasks[t];
    }
  }

  lemma ConnectStep(w: World, i: Id, interactive: bool, id: Id)
    requires Inv(w, id)
    ensures Inv(Step(w, Connect(i, interactive)), id)
  {
    var w' := Step(w, Connect(i, interactive));
    var g := BeginAttempt(w.s, i).1;
    var e := Bumped(i, g, true);
    BumpsSnoc(w.log, e, id);
    if Bumps(w'.log, id) <= U64_MAX {
      LogGrows(w.log, e, id);
      var task := Connecting(i, g, interactive);
      if i == id {
        assert w'.log[|w.log|] == e;
        assert Began(w'.log, id, g);
        assert Installed(id, g) !in w'.log by {
          NotYetInstalled(w.log, id, g);
        }
      }
      assert TaskFaithful(task, w'.log, id);
      TasksSpawn(w, e, id, task);
    }
  }

  lemma NotYetInstalled(log: seq<Event>, id: Id, g: Gen)
    requires LogFaithful(log, id) && Bumps(log, id) < g
    ensures Installed(id, g) !in log
  {
    if Installed(id, g) in log {
      var k :| 0 <= k < |log| && log[k] == Installed(id, g);
      BumpsMonotone(log, k, id);
    }
  }

  lemma TasksSpawn(w: World, e: Event, id: Id, task: Task)
    requires TasksFaithful(w, id) && e.Bumped?
    requires TaskFaithful(task, w.log + [e], id)
    requires Before(task, id) ==> Bumps(w.log, id) < task.gen
    ensures TasksFaithful(w.(tasks := w.tasks + [task], log := w.log + [e]), id)
  {
    var tasks' := w.tasks + [task];
    forall u | 0 <= u < |tasks'|
      ensures TaskFaithful(tasks'[u], w.log + [e], id)
    {
      if u < |w.tasks| {
        TaskStands(w.tasks[u], w.log, e, id);
      }
    }
    forall t, u | 0 <= t < u < |tasks'| && Before(tasks'[t], id) && Before(tasks'[u], id)
      ensures tasks'[t].gen != tasks'[u].gen
    {
      assert TaskFaithful(w.tasks[t], w.log, id);
    }
  }

  /** A section that moves the counter of some id on behalf of a disconnect or drop. */
  lemma VoidStep(w: World, w': World, id: Id, t: nat, e: Event)
    requires Inv(w, id) && t < |w.tasks|
    requires e.Bumped? && !e.connect && w'.log == w.log + [e]
    requires w'.s == BeginAttempt(w.s, e.id).0 && e.gen == BeginAttempt(w.s, e.id).1
    requires |w.tasks| == |w'.tasks| && w'.tasks == w.tasks[t := w'.tasks[t]]
    requires w'.tasks[t] == Finished || (w'.tasks[t] == Invalidated(e.id, e.gen) && e.id in w.s.attempts)
    ensures Inv(w', id)
  {
    BumpsSnoc(w.log, e, id);
    if Bumps(w'.log, id) <= U64_MAX {
      LogGrows(w.log, e, id);
      TasksStand(w, e, id, t, w'.tasks[t]);
      assert TasksFaithful(w', id);
    }
  }

  lemma PublishStep(w: World, t: nat, id: Id)
    requires Inv(w, id) && t < |w.tasks| && w.tasks[t].Ready?
    ensures Inv(AdvanceTask(w, t, true), id)
  {
    var i, g := w.tasks[t].id, w.tasks[t].gen;
    var w' := AdvanceTask(w, t, true);
    if InstallSession(w.s, i, g).1 {
      var e := Installed(i, g);
      BumpsSnoc(w.log, e, id);
      if Bumps(w'.log, id) <= U64_MAX {
        assert TaskFaithful(w.tasks[t], w.log, id);
        LogGrows(w.log, e, id);
        TasksStand(w, e, id, t, Finished);
        assert TasksFaithful(w', id);
      }
    } else {
      if Bumps(w.log, id) <= U64_MAX && i == id {
        assert TaskFaithful(w.tasks[t], w.log, id);
        BeganIsPositive(w, id, g);
      }
      QuietStep(w, w', id, t);
    }
  }

  lemma BeganIsPositive(w: World, id: Id, g: Gen)
    requires LogFaithful(w.log, id) && Began(w.log, id, g)
    ensures 1 <= g
  {
    var k :| 0 <= k < |w.log| && w.log[k] == Bumped(id, g, true);
    BumpsSnoc(w.log[..k], w.log[k], id);
    assert w.log[..k] + [w.log[k]] == w.log[..k + 1];
  }

  lemma ShellOpensStep(w: World, t: nat, id: Id)
    requires Inv(w, id) && t < |w.tasks| && w.tasks[t].Admitted?
    ensures Inv(AdvanceTask(w, t, true), id)
  {
    var i, g := w.tasks[t].id, w.tasks[t].gen;
    var mid := w.(s := InsertChannelAt(w.s, i, g), tasks := w.tasks[t := Ready(i, g)]);
    if Bumps(w.log, id) <= U64_MAX {
      assert TaskFaithful(w.tasks[t], w.log, id);
      if i == id {
        BeganIsPositive(w, id, g);
      }
    }
    QuietStep(w, mid, id, t);
    SpawnStep(mid, AdvanceTask(w, t, true), id);
  }

  lemma InvStep(w: World, a: Action, id: Id)
    requires Inv(w, id)
    ensures Inv(Step(w, a), id)
  {
    match a
    case Connect(i, interactive) => ConnectStep(w, i, interactive, id);
    case Disconnect(i) =>
      if Bumps(w.log, id) <= U64_MAX && i == id && id in w.s.attempts {
        assert w.s.attempts[id] == Bumps(w.log, id);
      }
      SpawnStep(w, Step(w, a), id);
    case Drop(_) => SpawnStep(w, Step(w, a), id);
    case OpenBastion(_) => SpawnStep(w, Step(w, a), id);
    case Advance(t, ok) =>
      if t < |w.tasks| {
        if Bumps(w.log, id) <= U64_MAX {
          assert TaskFaithful(w.tasks[t], w.log, id);
        }
        InvAdvance(w, t, ok, id);
      }
  }

  /** Sections that leave the counters and the log alone. */
  predicate Quiet(w: World, t: nat, ok: bool)
    requires t < |w.tasks|
  {
    match w.tasks[t]
    case Admitted(_, _) => !ok
    case Cleared(id, g) => Lookup(w.s.attempts, id) != Some(g)
    case Ready(_, _) => false
    case Dropping(_) => false
    case _ => true
  }

  lemma InvQuiet(w: World, t: nat, ok: bool, id: Id)
    requires Inv(w, id) && t < |w.tasks| && Quiet(w, t, ok)
    requires Bumps(w.log, id) <= U64_MAX ==> TaskFaithful(w.tasks[t], w.log, id)
    ensures Inv(AdvanceTask(w, t, ok), id)
  {
    QuietStep(w, AdvanceTask(w, t, ok), id, t);
  }

  lemma InvVoid(w: World, t: nat, ok: bool, id: Id)
    requires Inv(w, id) && t < |w.tasks|
    requires w.tasks[t].Dropping? || (w.tasks[t].Cleared? && !Quiet(w, t, ok))
    ensures Inv(AdvanceTask(w, t, ok), id)
  {
    var w' := AdvanceTask(w, t, ok);
    VoidStep(w, w', id, t, w'.log[|w.log|]);
  }

  lemma InvAdvance(w: World, t: nat, ok: bool, id: Id)
    requires Inv(w, id) && t < |w.tasks|
    requires Bumps(w.log, id) <= U64_MAX ==> TaskFaithful(w.tasks[t], w.log, id)
    ensures Inv(AdvanceTask(w, t, ok), id)
  {
    if Quiet(w, t, ok) {
      InvQuiet(w, t, ok, id);
    } else {
      match w.tasks[t]
      case Admitted(_, _) => ShellOpensStep(w, t, id);
      case Ready(_, _) => PublishStep(w, t, id);
      case Cleared(_, _) => InvVoid(w, t, ok, id);
      case Dropping(_) => InvVoid(w, t, ok, id);
    }
  }

  lemma {:induction false} InvHolds(actions: seq<Action>, id: Id)
    ensures Inv(Run(actions), id)
  {
    if actions != [] {
      var n := |actions| - 1;
      InvHolds(actions[..n], id);
      InvStep(Run(actions[..n]), actions[n], id);
    }
  }

  /** Between the start of an attempt and the publication of its session the counter never moves:
      an attempt that was superseded, invalidated or dropped never publishes. */
  lemma SupersededNeverInstalls(actions: seq<Action>, id: Id, g: Gen, i: nat)
    requires Bumps(Run(actions).log, id) <= U64_MAX
    requires i < |Run(actions).log| && Run(actions).log[i] == Installed(id, g)
    ensures NeverSuperseded(Run(actions).log, id, g, i)
  {
    InvHolds(actions, id);
    NoBumpBefore(Run(actions).log, id, g, i);
  }

  /** The attempt `g` began before position `i` of the history, and the counter stood still in between. */
  ghost predicate NeverSuperseded(log: seq<Event>, id: Id, g: Gen, i: nat)
    requires i <= |log|
  {
    exists k | 0 <= k < i :: log[k] == Bumped(id, g, true) && forall j | k < j < i :: !IsBump(log[j], id)
  }

  lemma NoBumpBefore(log: seq<Event>, id: Id, g: Gen, i: nat)
    requires LogFaithful(log, id) && i < |log| && log[i] == Installed(id, g)
    ensures NeverSuperseded(log, id, g, i)
  {
    var past := log[..i];
    var k :| 0 <= k < i && past[k] == Bumped(id, g, true);
    assert log[k] == Bumped(id, g, true) && EventFaithful(log[..k], log[k], id);
    BumpsSnoc(log[..k], log[k], id);
    assert past[..k + 1] == log[..k] + [log[k]];
    BumpsMonotone(past, k + 1, id);
    assert forall j | k < j < i :: log[j] == past[j];
  }

  /** Generations published for one id strictly increase. */
  lemma InstalledIncrease(actions: seq<Action>, id: Id, g: Gen, i: nat, h: Gen, j: nat)
    requires Bumps(Run(actions).log, id) <= U64_MAX
    requires i < j < |Run(actions).log|
    requires Run(actions).log[i] == Installed(id, g) && Run(actions).log[j] == Installed(id, h)
    ensures g < h
  {
    InvHolds(actions, id);
    var log := Run(actions).log;
    var past := log[..j];
    assert EventFaithful(log[..i], log[i], id) && EventFaithful(past, log[j], id);
    assert past[..i] == log[..i] && past[i] == log[i];
    BumpsMonotone(past, i, id);
  }

  /** A section that cleans up after the attempt `Owned(t)`. */
  predicate Cleanup(t: Task) {
    t.Refused? || t.Shell? || t.Cleared? || t.Invalidated?
  }

  function Owned(t: Task): Gen
    requires Cleanup(t)
  {
    if t.Invalidated? then PrevGen(t.next) else t.gen
  }

  /** A cleanup moves the counter only if it still stands at the attempt it cleans up after, removes a
      channel only if it carries that attempt's tag, never touches a session, and never owns the tag of a
      bastion pty: whatever a newer attempt or a bastion put in the tables stays. */
  lemma CleanupTouchesOnlyItsOwn(actions: seq<Action>, t: nat, ok: bool)
    requires t < |Run(actions).tasks| && Cleanup(Run(actions).tasks[t])
    requires Bumps(Run(actions).log, Run(actions).tasks[t].id) <= U64_MAX
    ensures var w, task := Run(actions), Run(actions).tasks[t];
            var own, s' := Owned(task), Step(w, Advance(t, ok)).s;
            && own != BASTION_TAG
            && task.id in w.s.attempts && own <= w.s.attempts[task.id]
            && s'.sessions == w.s.sessions
            && s'.attempts == (if task.Cleared? && w.s.attempts[task.id] == own
                               then w.s.attempts[task.id := NextGen(own)] else w.s.attempts)
            && s'.channels == (if !task.Cleared? && Lookup(w.s.channels, task.id) == Some(own)
                               then w.s.channels - {task.id} else w.s.channels)
  {
    var w := Run(actions);
    var id := w.tasks[t].id;
    InvHolds(actions, id);
    assert TaskFaithful(w.tasks[t], w.log, id);
  }

  lemma RunSnoc(actions: seq<Action>, a: Action)
    ensures Run(actions + [a]) == Step(Run(actions), a)
  {
    assert (actions + [a])[..|actions|] == actions;
  }

  /** A disconnect has read generation 1, and a second connect has begun. */
  lemma DisconnectThenConnect(id: Id) returns (a3: seq<Action>)
    ensures Run(a3) == World(Tables(map[id := 2], map[], map[]),
                             [Connecting(id, 1, false), Leaving(id, Some(1)), Connecting(id, 2, false)],
                             [Bumped(id, 1, true), Bumped(id, 2, true)], [])
  {
    var a1 := [] + [Connect(id, false)];
    var a2 := a1 + [Disconnect(id)];
    a3 := a2 + [Connect(id, false)];
    assert Run(a1) == World(Tables(map[id := 1], map[], map[]), [Connecting(id, 1, false)],
                            [Bumped(id, 1, true)], []) by {
      RunSnoc([], Connect(id, false));
    }
    RunSnoc(a1, Disconnect(id));
    RunSnoc(a2, Connect(id, false));
  }

  /** The second connect publishes while the disconnect is still to remove the session. */
  lemma ReconnectBehindDisconnect(id: Id) returns (actions: seq<Action>)
    ensures Run(actions) == World(Tables(map[id := 2], map[id := 2], map[]),
                                  [Connecting(id, 1, false), Leaving(id, Some(1)), Finished],
                                  [Bumped(id, 1, true), Bumped(id, 2, true), Installed(id, 2)],
                                  [Published(id, 2)])
  {
    var a3 := DisconnectThenConnect(id);
    var a4 := a3 + [Advance(2, true)];
    actions := a4 + [Advance(2, true)];
    RunSnoc(a3, Advance(2, true));
    assert Run(a4) == Run(a3).(tasks := [Connecting(id, 1, false), Leaving(id, Some(1)), Ready(id, 2)]);
    RunSnoc(a4, Advance(2, true));
  }

  /** Only the counter is guarded in a disconnect: one that read generation 1 removes the session that
      attempt 2 published meanwhile, and attempt 2 stays current. */
  lemma StaleDisconnectTakesNewSession(id: Id)
    ensures exists actions ::
      var w := Run(actions);
      && w.log == [Bumped(id, 1, true), Bumped(id, 2, true), Installed(id, 2)]
      && w.tasks == [Connecting(id, 1, false), Finished, Finished]
      && w.s == Tables(map[id := 2], map[], map[])
  {
    var a5 := ReconnectBehindDisconnect(id);
    var a6 := a5 + [Advance(1, true)];
    var a7 := a6 + [Advance(1, true)];
    RunSnoc(a5, Advance(1, true));
    assert Run(a6).s == Tables(map[id := 2], map[], map[]);
    RunSnoc(a6, Advance(1, true));
    assert Run(a7).tasks == [Connecting(id, 1, false), Finished, Finished];
  }

  /** A connect whose publication falls between the two sections of drop_session outlives the drop. */
  lemma DropMissesConcurrentInstall(id: Id)
    ensures exists actions ::
      var w := Run(actions);
      && w.log == [Bumped(id, 1, true), Installed(id, 1), Bumped(id, 2, false)]
      && w.tasks == [Finished, Finished]
      && w.s == Tables(map[id := 2], map[id := 1], map[])
  {
    var a1 := [Connect(id, false)];
    var a2 := a1 + [Advance(0, true)];
    var a3 := a2 + [Drop(id)];
    var a4 := a3 + [Advance(0, true)];
    var a5 := a4 + [Advance(1, true)];
    assert Run([]) == INIT;
    assert a1 == [] + a1;
    RunSnoc([], Connect(id, false));
    RunSnoc(a1, Advance(0, true));
    RunSnoc(a2, Drop(id));
    assert Run(a3).s.sessions == map[];
    RunSnoc(a3, Advance(0, true));
    RunSnoc(a4, Advance(1, true));
    assert Run(a5).s == Tables(map[id := 2], map[id := 1], map[]);
  }

  /** A superseded attempt that opens its shell late replaces the live attempt's write channel and then
      removes it: the live session is left without one. */
  lemma LateShellTakesLiveChannel(id: Id)
    ensures exists actions ::
      var w := Run(actions);
      && w.log == [Bumped(id, 1, true), Bumped(id, 2, true), Installed(id, 2)]
      && w.tasks == [Finished, Finished, Shell(id, 2), Shell(id, 1)]
      && w.s == Tables(map[id := 2], map[id := 2], map[])
  {
    var a6 := SecondConnectOvertakes(id);
    var a7 := a6 + [Advance(0, true)];
    var a8 := a7 + [Advance(0, true)];
    var a9 := a8 + [Advance(0, true)];
    RunSnoc(a6, Advance(0, true));
    assert Run(a7).s == Tables(map[id := 2], map[id := 2], map[id := 1]);
    RunSnoc(a7, Advance(0, true));
    assert Run(a8).tasks == [Refused(id, 1), Finished, Shell(id, 2), Shell(id, 1)];
    RunSnoc(a8, Advance(0, true));
    assert Run(a9).s.channels == map[];
  }

  /** The first connect is about to open its shell, and a second one has begun. */
  lemma TwoConnects(id: Id) returns (a3: seq<Action>)
    ensures Run(a3) == World(Tables(map[id := 2], map[], map[]), [Admitted(id, 1), Connecting(id, 2, true)],
                             [Bumped(id, 1, true), Bumped(id, 2, true)], [])
  {
    var a1 := [] + [Connect(id, true)];
    var a2 := a1 + [Advance(0, true)];
    a3 := a2 + [Connect(id, true)];
    assert Run(a1) == World(Tables(map[id := 1], map[], map[]), [Connecting(id, 1, true)],
                            [Bumped(id, 1, true)], []) by {
      RunSnoc([], Connect(id, true));
    }
    RunSnoc(a1, Advance(0, true));
    RunSnoc(a2, Connect(id, true));
  }

  /** The second connect publishes while the first is still opening its shell. */
  lemma SecondConnectOvertakes(id: Id) returns (actions: seq<Action>)
    ensures Run(actions) == World(Tables(map[id := 2], map[id := 2], map[id := 2]),
                                  [Admitted(id, 1), Finished, Shell(id, 2)],
                                  [Bumped(id, 1, true), Bumped(id, 2, true), Installed(id, 2)],
                                  [Opened(id, 2, 2), Published(id, 2)])
  {
    var a3 := TwoConnects(id);
    var a4 := a3 + [Advance(1, true)];
    var a5 := a4 + [Advance(1, true)];
    actions := a5 + [Advance(1, true)];
    RunSnoc(a3, Advance(1, true));
    assert Run(a4) == Run(a3).(tasks := [Admitted(id, 1), Admitted(id, 2)]);
    RunSnoc(a4, Advance(1, true));
    assert Run(a5).tasks == [Admitted(id, 1), Ready(id, 2), Shell(id, 2)];
    RunSnoc(a5, Advance(1, true));
  }

  lemma OneMoreConnect(w: World, id: Id, n: nat)
    requires 1 <= n < U64_MAX && w.s == Tables(map[id := n], map[], map[])
    ensures Step(w, Connect(id, false)) == World(Tables(map[id := n + 1], map[], map[]),
                                                 w.tasks + [Connecting(id, n + 1, false)],
                                                 w.log + [Bumped(id, n + 1, true)], w.trace)
  {
    var s: map<Id, Gen> := map[id := n];
    assert s[id := n + 1] == map[id := n + 1];
  }

  lemma FirstConnect(id: Id) returns (actions: seq<Action>)
    ensures Run(actions) == World(Tables(map[id := 1], map[], map[]), [Connecting(id, 1, false)],
                                  [] + [Bumped(id, 1, true)], [])
  {
    actions := [] + [Connect(id, false)];
    RunSnoc([], Connect(id, false));
  }

  lemma {:induction false} ManyConnects(id: Id, n: nat) returns (actions: seq<Action>)
    requires 1 <= n <= U64_MAX
    ensures Run(actions).s == Tables(map[id := n], map[], map[])
    ensures |Run(actions).tasks| == n && Run(actions).tasks[0] == Connecting(id, 1, false)
    ensures |Run(actions).log| == Bumps(Run(actions).log, id) == n
  {
    if n == 1 {
      actions := FirstConnect(id);
      BumpsSnoc([], Bumped(id, 1, true), id);
    } else {
      var before := ManyConnects(id, n - 1);
      actions := before + [Connect(id, false)];
      var w := Run(before);
      assert Run(actions) == World(Tables(map[id := n], map[], map[]), w.tasks + [Connecting(id, n, false)],
                                   w.log + [Bumped(id, n, true)], w.trace) by {
        RunSnoc(before, Connect(id, false));
        OneMoreConnect(w, id, n - 1);
      }
      BumpsSnoc(w.log, Bumped(id, n, true), id);
    }
  }

  /** An attempt whose generation is current publishes in two sections. */
  lemma Publishes(actions: seq<Action>, t: nat, id: Id, g: Gen) returns (actions': seq<Action>)
    requires t < |Run(actions).tasks| && Run(actions).tasks[t] == Connecting(id, g, false)
    requires Lookup(Run(actions).s.attempts, id) == Some(g)
    ensures Run(actions').log == Run(actions).log + [Installed(id, g)]
    ensures Run(actions').s.attempts == Run(actions).s.attempts
    ensures Run(actions').tasks == Run(actions).tasks[t := Finished]
    ensures Bumps(Run(actions').log, id) == Bumps(Run(actions).log, id)
  {
    var mid := actions + [Advance(t, true)];
    RunSnoc(actions, Advance(t, true));
    AdmitsTask(Run(actions), t, id, g);
    actions' := mid + [Advance(t, true)];
    RunSnoc(mid, Advance(t, true));
    PublishesTask(Run(mid), t, id, g);
    assert Run(mid).tasks[t := Finished] == Run(actions).tasks[t := Finished];
    BumpsSnoc(Run(actions).log, Installed(id, g), id);
  }

  lemma AdmitsTask(w: World, t: nat, id: Id, g: Gen)
    requires t < |w.tasks| && w.tasks[t] == Connecting(id, g, false) && Lookup(w.s.attempts, id) == Some(g)
    ensures Step(w, Advance(t, true)) == w.(tasks := w.tasks[t := Ready(id, g)])
  {
  }

  lemma PublishesTask(w: World, t: nat, id: Id, g: Gen)
    requires t < |w.tasks| && w.tasks[t] == Ready(id, g) && Lookup(w.s.attempts, id) == Some(g)
    ensures var w' := Step(w, Advance(t, true));
            w'.log == w.log + [Installed(id, g)] && w'.s.attempts == w.s.attempts && w'.tasks == w.tasks[t := Finished]
  {
  }

  /** The bound of the theorems above is exact: one counter move more and the counter wraps to 1, so the
      first attempt and the last hold the same generation and both publish. */
  lemma WrapReadmitsFirstAttempt(id: Id)
    ensures exists actions, i, j ::
      var log := Run(actions).log;
      && Bumps(log, id) == U64_MAX + 1
      && 0 <= i < j < |log| && log[i] == Installed(id, 1) && log[j] == Installed(id, 1)
  {
    var most := ManyConnects(id, U64_MAX);
    var all := most + [Connect(id, false)];
    RunSnoc(most, Connect(id, false));
    BumpsSnoc(Run(most).log, Bumped(id, 1, true), id);
    var n := |Run(all).log|;
    var once := Publishes(all, 0, id, 1);
    var twice := Publishes(once, U64_MAX, id, 1);
    assert Run(twice).log[n] == Run(once).log[n] == Installed(id, 1);
    assert Run(twice).log[n + 1] == Installed(id, 1);
  }
}
