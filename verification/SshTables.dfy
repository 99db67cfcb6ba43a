/** When a disconnect, a drop or a late shell costs a newer attempt its session or its write channel: the exact
    conditions, over every run, for what the unguarded sections of SshAttempts do to the tables. */
module SshTables {
  import opened Wrappers
  import opened SshAttempts

  // ---------------------------------------------------------------- the tables and their history

  predicate OfSession(m: Mark, id: Id) {
    (m.Published? || m.Unpublished?) && m.id == id
  }

  predicate OfChannel(m: Mark, id: Id) {
    (m.Opened? || m.Shut? || m.Cut?) && m.id == id
  }

  /** What the last mark about the session of `id` says. */
  function SessionIn(trace: seq<Mark>, id: Id): Option<Gen> {
    if trace == [] then None
    else
      var last := trace[|trace| - 1];
      if OfSession(last, id) then (if last.Published? then Some(last.gen) else None)
      else SessionIn(trace[..|trace| - 1], id)
  }

  function ChannelIn(trace: seq<Mark>, id: Id): Option<Gen> {
    if trace == [] then None
    else
      var last := trace[|trace| - 1];
      if OfChannel(last, id) then (if last.Opened? then Some(last.tag) else None)
      else ChannelIn(trace[..|trace| - 1], id)
  }

  ghost predicate Traced(w: World, id: Id) {
    Lookup(w.s.sessions, id) == SessionIn(w.trace, id) && Lookup(w.s.channels, id) == ChannelIn(w.trace, id)
  }

  lemma MarkAdded(trace: seq<Mark>, m: Mark, id: Id)
    ensures SessionIn(trace + [m], id)
         == if OfSession(m, id) then (if m.Published? then Some(m.gen) else None) else SessionIn(trace, id)
    ensures ChannelIn(trace + [m], id)
         == if OfChannel(m, id) then (if m.Opened? then Some(m.tag) else None) else ChannelIn(trace, id)
  {
    assert (trace + [m])[..|trace|] == trace;
  }

  /** A section adds at most one mark. */
  lemma StepMarks(w: World, a: Action)
    ensures var w' := Step(w, a);
            w'.trace == w.trace || (|w'.trace| == |w.trace| + 1 && w'.trace == w.trace + [w'.trace[|w.trace|]])
  {
  }

  lemma TracedMark(w: World, w': World, m: Mark, id: Id)
    requires Traced(w, id) && w'.trace == w.trace + [m]
    requires Lookup(w'.s.sessions, id)
          == if OfSession(m, id) then (if m.Published? then Some(m.gen) else None) else Lookup(w.s.sessions, id)
    requires Lookup(w'.s.channels, id)
          == if OfChannel(m, id) then (if m.Opened? then Some(m.tag) else None) else Lookup(w.s.channels, id)
    ensures Traced(w', id)
  {
    MarkAdded(w.trace, m, id);
  }

  lemma TracedClose(w: World, t: nat, i: Id, g: Gen, id: Id)
    requires Traced(w, id) && t < |w.tasks|
    ensures Traced(CloseChannel(w, t, i, g), id)
  {
    if Lookup(w.s.channels, i) == Some(g) {
      TracedMark(w, CloseChannel(w, t, i, g), Shut(i, g, t), id);
    } else {
      assert w.trace + [] == w.trace;
    }
  }

  lemma TracedBastion(w: World, t: nat, ok: bool, id: Id)
    requires Traced(w, id) && t < |w.tasks| && w.tasks[t].Bastion?
    ensures Traced(AdvanceTask(w, t, ok), id)
  {
    var i := w.tasks[t].id;
    if i in w.s.channels {
      TracedMark(w, AdvanceTask(w, t, ok), Cut(i, t), id);
    } else {
      assert w.trace + [] == w.trace;
    }
  }

  lemma TracedAdvance(w: World, t: nat, ok: bool, id: Id)
    requires Traced(w, id) && t < |w.tasks|
    ensures Traced(AdvanceTask(w, t, ok), id)
  {
    match w.tasks[t]
    case Admitted(i, g) => if ok { TracedMark(w, AdvanceTask(w, t, ok), Opened(i, g, |w.tasks|), id); }
    case Ready(i, g) => if InstallSession(w.s, i, g).1 { TracedMark(w, AdvanceTask(w, t, ok), Published(i, g), id); }
    case Refused(i, g) => TracedClose(w, t, i, g, id);
    case Shell(i, g) => TracedClose(w, t, i, g, id);
    case Leaving(i, _) => TracedMark(w, AdvanceTask(w, t, ok), Unpublished(i, t), id);
    case Invalidated(i, next) => TracedClose(w, t, i, PrevGen(next), id);
    case Bastion(_) => TracedBastion(w, t, ok, id);
    case _ =>
  }

  lemma TracedStep(w: World, a: Action, id: Id)
    requires Traced(w, id)
    ensures Traced(Step(w, a), id)
  {
    match a
    case Drop(i) => TracedMark(w, Step(w, a), Unpublished(i, |w.tasks|), id);
    case OpenBastion(i) => TracedMark(w, Step(w, a), Opened(i, BASTION_TAG, |w.tasks|), id);
    case Advance(t, ok) => if t < |w.tasks| { TracedAdvance(w, t, ok, id); }
    case _ =>
  }

  /** In every run the tables hold what the history says. */
  lemma {:induction false} TablesFollowTrace(actions: seq<Action>, id: Id)
    ensures Traced(Run(actions), id)
  {
    if actions != [] {
      TablesFollowTrace(actions[..|actions| - 1], id);
      TracedStep(Run(actions[..|actions| - 1]), actions[|actions| - 1], id);
    }
  }

  /** Behind a removal there is a session exactly if one was published since and not removed again. */
  lemma {:induction false} SessionSince(trace: seq<Mark>, id: Id, k: nat)
    requires k < |trace| && trace[k].Unpublished? && trace[k].id == id
    ensures SessionIn(trace, id).Some? <==> PublishedSince(trace, id, k)
  {
    var n := |trace| - 1;
    var front := trace[..n];
    if k == n {
    } else {
      SessionSince(front, id, k);
      if OfSession(trace[n], id) {
        if trace[n].Published? {
          assert StandsFrom(trace, id, n);
        }
      } else {
        if j :| k < j < n && StandsFrom(front, id, j) {
          assert StandsFrom(trace, id, j);
        }
        if j :| k < j < |trace| && StandsFrom(trace, id, j) {
          assert j < n && StandsFrom(front, id, j);
        }
      }
    }
  }

  /** A session of `id` was published at `j` and not removed since. */
  ghost predicate StandsFrom(trace: seq<Mark>, id: Id, j: nat) {
    && j < |trace| && trace[j].Published? && trace[j].id == id
    && forall m | j < m < |trace| :: !(trace[m].Unpublished? && trace[m].id == id)
  }

  ghost predicate PublishedSince(trace: seq<Mark>, id: Id, k: nat) {
    exists j :: k < j < |trace| && StandsFrom(trace, id, j)
  }

  // ---------------------------------------------------------------- disconnect

  /** Newer than what a disconnect read. */
  predicate Newer(session: Option<Gen>, guard: Option<Gen>) {
    session.Some? && (guard.Some? ==> session.value > guard.value)
  }

  /** A session newer than the guard was published and has not been removed since. */
  ghost predicate NewerStands(trace: seq<Mark>, id: Id, guard: Option<Gen>) {
    exists j :: 0 <= j < |trace| && StandsFrom(trace, id, j) && Newer(Some(trace[j].gen), guard)
  }

  /** The unguarded section of a disconnect takes whatever session there is. So, short of the wrap, it takes one newer
      than the attempt it is for exactly if such a session was published and has not been removed since. While the
      counter still stands where the disconnect read it, there is none. */
  lemma DisconnectTakesNewerIff(actions: seq<Action>, t: nat, ok: bool)
    requires t < |Run(actions).tasks| && Run(actions).tasks[t].Leaving?
    ensures var w, id, guard := Run(actions), Run(actions).tasks[t].id, Run(actions).tasks[t].guard;
            && Step(w, Advance(t, ok)).s == w.s.(sessions := w.s.sessions - {id})
            && (Bumps(w.log, id) <= U64_MAX ==>
                  && (Newer(Lookup(w.s.sessions, id), guard) <==> NewerStands(w.trace, id, guard))
                  && (Lookup(w.s.attempts, id) == guard ==> !NewerStands(w.trace, id, guard)))
  {
    var id := Run(actions).tasks[t].id;
    if Bumps(Run(actions).log, id) <= U64_MAX {
      NewerSessionIff(actions, id, Run(actions).tasks[t].guard);
      CurrentIsNewest(actions, id);
    }
  }

  lemma NewerSessionIff(actions: seq<Action>, id: Id, guard: Option<Gen>)
    requires Bumps(Run(actions).log, id) <= U64_MAX
    ensures Newer(Lookup(Run(actions).s.sessions, id), guard) <==> NewerStands(Run(actions).trace, id, guard)
  {
    TablesFollowTrace(actions, id);
    PublicationsRise(actions, id);
    NewerIsThere(Run(actions).trace, id, guard);
  }

  lemma CurrentIsNewest(actions: seq<Action>, id: Id)
    requires Bumps(Run(actions).log, id) <= U64_MAX
    ensures !Newer(Lookup(Run(actions).s.sessions, id), Lookup(Run(actions).s.attempts, id))
  {
    InvHolds(actions, id);
    PublishedBehindBump(actions, id);
  }

  lemma NewerIsThere(trace: seq<Mark>, id: Id, guard: Option<Gen>)
    requires Ascending(trace, id)
    ensures Newer(SessionIn(trace, id), guard) <==> NewerStands(trace, id, guard)
  {
    if SessionIn(trace, id).Some? {
      var j := SessionFrom(trace, id);
    }
    if j :| 0 <= j < |trace| && StandsFrom(trace, id, j) && Newer(Some(trace[j].gen), guard) {
      StandsOrNewer(trace, id, j);
    }
  }

  lemma {:induction false} SessionFrom(trace: seq<Mark>, id: Id) returns (j: nat)
    requires SessionIn(trace, id).Some?
    ensures StandsFrom(trace, id, j) && Some(trace[j].gen) == SessionIn(trace, id)
  {
    var n := |trace| - 1;
    if OfSession(trace[n], id) {
      j := n;
    } else {
      j := SessionFrom(trace[..n], id);
      assert forall m | j < m < n :: trace[m] == trace[..n][m];
    }
  }

  lemma {:induction false} StandsOrNewer(trace: seq<Mark>, id: Id, j: nat)
    requires Ascending(trace, id) && StandsFrom(trace, id, j)
    ensures SessionIn(trace, id).Some? && SessionIn(trace, id).value >= trace[j].gen
  {
    var n := |trace| - 1;
    if j < n && !OfSession(trace[n], id) {
      assert forall m | 0 <= m < n :: trace[..n][m] == trace[m];
      StandsOrNewer(trace[..n], id, j);
    }
  }

  /** Generations published for an id never fall. */
  ghost predicate Ascending(trace: seq<Mark>, id: Id) {
    forall i, j | 0 <= i < j < |trace| && PublishedFor(trace[i], id) && PublishedFor(trace[j], id) ::
      trace[i].gen <= trace[j].gen
  }

  predicate PublishedFor(m: Mark, id: Id) {
    m.Published? && m.id == id
  }

  ghost predicate Rising(w: World, id: Id) {
    && Ascending(w.trace, id)
    && forall k | 0 <= k < |w.trace| && PublishedFor(w.trace[k], id) :: w.trace[k].gen <= Bumps(w.log, id)
  }

  lemma NewPublished(w: World, a: Action)
    requires |Step(w, a).trace| > |w.trace| && Step(w, a).trace[|w.trace|].Published?
    ensures var m := Step(w, a).trace[|w.trace|]; Lookup(w.s.attempts, m.id) == Some(m.gen)
  {
  }

  lemma RisingStep(w: World, a: Action, id: Id)
    requires Inv(w, id) && Bumps(w.log, id) <= U64_MAX && Rising(w, id)
    ensures Rising(Step(w, a), id)
  {
    var w' := Step(w, a);
    StepMarks(w, a);
    BumpsStep(w, a, id);
    if |w'.trace| > |w.trace| && w'.trace[|w.trace|].Published? {
      NewPublished(w, a);
    }
    assert forall k | 0 <= k < |w.trace| :: w'.trace[k] == w.trace[k];
  }

  lemma {:induction false} PublicationsRise(actions: seq<Action>, id: Id)
    requires Bumps(Run(actions).log, id) <= U64_MAX
    ensures Ascending(Run(actions).trace, id) && Rising(Run(actions), id)
  {
    if actions != [] {
      var before, a := actions[..|actions| - 1], actions[|actions| - 1];
      BumpsStep(Run(before), a, id);
      PublicationsRise(before, id);
      InvHolds(before, id);
      RisingStep(Run(before), a, id);
    }
  }

  lemma CounterStays(w: World, a: Action, id: Id)
    requires id in w.s.sessions ==> id in w.s.attempts
    ensures id in Step(w, a).s.sessions ==> id in Step(w, a).s.attempts
  {
  }

  /** A session is there only once its id has a counter. */
  lemma {:induction false} PublishedBehindBump(actions: seq<Action>, id: Id)
    ensures id in Run(actions).s.sessions ==> id in Run(actions).s.attempts
  {
    if actions != [] {
      PublishedBehindBump(actions[..|actions| - 1], id);
      CounterStays(Run(actions[..|actions| - 1]), actions[|actions| - 1], id);
    }
  }

  // ---------------------------------------------------------------- drop

  /** Where each drop in flight made the session absent. */
  ghost predicate DropsMarked(w: World) {
    forall t | 0 <= t < |w.tasks| && w.tasks[t].Dropping? :: MarkedAt(w.trace, w.tasks[t].id, t)
  }

  ghost predicate MarkedAt(trace: seq<Mark>, id: Id, t: nat) {
    exists k :: 0 <= k < |trace| && trace[k] == Unpublished(id, t)
  }

  /** Only a new drop makes a task one. */
  lemma DropTasks(w: World, a: Action, t: nat)
    requires t < |Step(w, a).tasks| && Step(w, a).tasks[t].Dropping?
    ensures if t < |w.tasks| then Step(w, a).tasks[t] == w.tasks[t] else
              Step(w, a).trace == w.trace + [Unpublished(Step(w, a).tasks[t].id, t)]
  {
  }

  lemma DropsMarkedStep(w: World, a: Action)
    requires DropsMarked(w)
    ensures DropsMarked(Step(w, a))
  {
    var w' := Step(w, a);
    StepMarks(w, a);
    forall t | 0 <= t < |w'.tasks| && w'.tasks[t].Dropping?
      ensures MarkedAt(w'.trace, w'.tasks[t].id, t)
    {
      DropTasks(w, a, t);
      if t < |w.tasks| {
        var k :| 0 <= k < |w.trace| && w.trace[k] == Unpublished(w.tasks[t].id, t);
        assert w'.trace[k] == w.trace[k];
      } else {
        assert w'.trace[|w.trace|] == Unpublished(w'.tasks[t].id, t);
      }
    }
  }

  lemma {:induction false} DropsAreMarked(actions: seq<Action>)
    ensures DropsMarked(Run(actions))
  {
    if actions != [] {
      DropsAreMarked(actions[..|actions| - 1]);
      DropsMarkedStep(Run(actions[..|actions| - 1]), actions[|actions| - 1]);
    }
  }

  /** After both sections of a drop a session is there exactly if one was published since its first section and
      has not been removed again; and that one is below the counter, short of the wrap. */
  lemma DropLeavesSessionIff(actions: seq<Action>, t: nat, ok: bool)
    requires t < |Run(actions).tasks| && Run(actions).tasks[t].Dropping?
    ensures var w, id := Run(actions), Run(actions).tasks[t].id;
            var s' := Step(w, Advance(t, ok)).s;
            && MarkedAt(w.trace, id, t)
            && (forall k | 0 <= k < |w.trace| && w.trace[k] == Unpublished(id, t) ::
                  id in s'.sessions <==> PublishedSince(w.trace, id, k))
            && id in s'.attempts
            && (Bumps(w.log, id) < U64_MAX && id in s'.sessions ==> s'.sessions[id] < s'.attempts[id])
  {
    var w, id := Run(actions), Run(actions).tasks[t].id;
    InvHolds(actions, id);
    TablesFollowTrace(actions, id);
    DropsAreMarked(actions);
    forall k | 0 <= k < |w.trace| && w.trace[k] == Unpublished(id, t)
      ensures id in w.s.sessions <==> PublishedSince(w.trace, id, k)
    {
      SessionSince(w.trace, id, k);
    }
  }

  lemma LogStep(w: World, a: Action)
    ensures w.log <= Step(w, a).log
  {
  }

  lemma {:induction false} LogOnlyGrows(actions: seq<Action>, more: seq<Action>)
    ensures Run(actions).log <= Run(actions + more).log
    decreases |more|
  {
    if more == [] {
      assert actions + more == actions;
    } else {
      var front, last := more[..|more| - 1], more[|more| - 1];
      LogOnlyGrows(actions, front);
      assert actions + more == (actions + front) + [last];
      RunSnoc(actions + front, last);
      LogStep(Run(actions + front), last);
    }
  }

  /** Once the counter has passed an attempt that has not published, it never does. */
  lemma PassedNeverPublishes(actions: seq<Action>, more: seq<Action>, id: Id, g: Gen)
    requires Bumps(Run(actions + more).log, id) <= U64_MAX
    requires g < Bumps(Run(actions).log, id) && Installed(id, g) !in Run(actions).log
    ensures Installed(id, g) !in Run(actions + more).log
  {
    var log, later := Run(actions).log, Run(actions + more).log;
    LogOnlyGrows(actions, more);
    InvHolds(actions + more, id);
    forall i | 0 <= i < |later|
      ensures later[i] != Installed(id, g)
    {
      if i < |log| {
        assert later[i] == log[i];
      } else {
        assert later[..i][..|log|] == log;
        BumpsMonotone(later[..i], |log|, id);
        assert later[i].id == id ==> EventFaithful(later[..i], later[i], id);
      }
    }
  }

  ghost predicate MayPublish(actions: seq<Action>, id: Id, g: Gen) {
    exists more :: Bumps(Run(actions + more).log, id) <= U64_MAX && Installed(id, g) in Run(actions + more).log
  }

  lemma RunTwo(actions: seq<Action>, a: Action, more: seq<Action>)
    ensures (actions + [a]) + more == actions + ([a] + more)
  {
  }

  lemma ReadyPublishes(actions: seq<Action>, u: nat, id: Id, g: Gen)
    requires u < |Run(actions).tasks| && Run(actions).tasks[u] == Ready(id, g)
    requires Lookup(Run(actions).s.attempts, id) == Some(g)
    requires Bumps(Run(actions).log, id) <= U64_MAX
    ensures MayPublish(actions, id, g)
  {
    var log, more := Run(actions).log, [Advance(u, true)];
    RunSnoc(actions, Advance(u, true));
    assert Run(actions + more).log == log + [Installed(id, g)];
    BumpsSnoc(log, Installed(id, g), id);
    assert (log + [Installed(id, g)])[|log|] == Installed(id, g);
  }

  lemma LaterPublishes(actions: seq<Action>, a: Action, id: Id, g: Gen)
    requires MayPublish(actions + [a], id, g)
    ensures MayPublish(actions, id, g)
  {
    var more :| Bumps(Run((actions + [a]) + more).log, id) <= U64_MAX
                && Installed(id, g) in Run((actions + [a]) + more).log;
    RunTwo(actions, a, more);
    assert Bumps(Run(actions + ([a] + more)).log, id) <= U64_MAX;
  }

  lemma ConnectMovesOn(w: World, u: nat, id: Id)
    requires u < |w.tasks| && Before(w.tasks[u], id) && !w.tasks[u].Ready?
    requires Lookup(w.s.attempts, id) == Some(w.tasks[u].gen)
    ensures var w' := Step(w, Advance(u, true)); var task, task' := w.tasks[u], w'.tasks[u];
            && w'.log == w.log && w'.s.attempts == w.s.attempts && |w'.tasks| >= |w.tasks|
            && Before(task', id) && task'.gen == task.gen
            && (task'.Ready? || (task'.Admitted? && task.Connecting?))
  {
  }

  /** A connect in flight whose generation is current can go through on its own. */
  lemma CurrentMayPublish(actions: seq<Action>, u: nat, id: Id)
    requires u < |Run(actions).tasks| && Before(Run(actions).tasks[u], id)
    requires Lookup(Run(actions).s.attempts, id) == Some(Run(actions).tasks[u].gen)
    requires Bumps(Run(actions).log, id) <= U64_MAX
    ensures MayPublish(actions, id, Run(actions).tasks[u].gen)
    decreases if Run(actions).tasks[u].Connecting? then 2 else if Run(actions).tasks[u].Admitted? then 1 else 0
  {
    if Run(actions).tasks[u].Ready? {
      ReadyPublishes(actions, u, id, Run(actions).tasks[u].gen);
    } else {
      RunSnoc(actions, Advance(u, true));
      ConnectMovesOn(Run(actions), u, id);
      CurrentMayPublish(actions + [Advance(u, true)], u, id);
      LaterPublishes(actions, Advance(u, true), id, Run(actions).tasks[u].gen);
    }
  }

  /** The second section of a drop voids a connect in flight, which could still publish before it and never can
      after it, exactly if the connect's attempt is current then, however new it is. */
  lemma DropVoidsIffCurrent(actions: seq<Action>, t: nat, ok: bool, u: nat)
    requires t < |Run(actions).tasks| && Run(actions).tasks[t].Dropping?
    requires u < |Run(actions).tasks| && Before(Run(actions).tasks[u], Run(actions).tasks[t].id)
    requires Bumps(Run(actions).log, Run(actions).tasks[t].id) < U64_MAX
    ensures var w, id, g := Run(actions), Run(actions).tasks[t].id, Run(actions).tasks[u].gen;
            && (MayPublish(actions, id, g) <==> Lookup(w.s.attempts, id) == Some(g))
            && !MayPublish(actions + [Advance(t, ok)], id, g)
  {
    var id, g := Run(actions).tasks[t].id, Run(actions).tasks[u].gen;
    BeforeIsReached(actions, u, id);
    if Lookup(Run(actions).s.attempts, id) == Some(g) {
      CurrentMayPublish(actions, u, id);
    } else {
      NoMorePublishing(actions, id, g);
    }
    DropMovesOn(actions, t, ok, id);
    assert Installed(id, g) !in Run(actions + [Advance(t, ok)]).log;
    NoMorePublishing(actions + [Advance(t, ok)], id, g);
  }

  lemma FaithfulIsReached(w: World, task: Task, id: Id)
    requires LogFaithful(w.log, id) && CounterFaithful(w, id) && Bumps(w.log, id) <= U64_MAX
    requires Before(task, id) && TaskFaithful(task, w.log, id)
    ensures task.gen <= Bumps(w.log, id) && Installed(id, task.gen) !in w.log
    ensures task.gen < Bumps(w.log, id) <==> Lookup(w.s.attempts, id) != Some(task.gen)
  {
    BeganIsPositive(w, id, task.gen);
  }

  lemma BeforeIsReached(actions: seq<Action>, u: nat, id: Id)
    requires u < |Run(actions).tasks| && Before(Run(actions).tasks[u], id)
    requires Bumps(Run(actions).log, id) <= U64_MAX
    ensures var w, g := Run(actions), Run(actions).tasks[u].gen;
            && g <= Bumps(w.log, id) && Installed(id, g) !in w.log
            && (g < Bumps(w.log, id) <==> Lookup(w.s.attempts, id) != Some(g))
  {
    InvHolds(actions, id);
    FaithfulIsReached(Run(actions), Run(actions).tasks[u], id);
  }

  lemma DropMovesOn(actions: seq<Action>, t: nat, ok: bool, id: Id)
    requires t < |Run(actions).tasks| && Run(actions).tasks[t] == Dropping(id)
    ensures var log, log' := Run(actions).log, Run(actions + [Advance(t, ok)]).log;
            && log' == log + [Bumped(id, BeginAttempt(Run(actions).s, id).1, false)]
            && Bumps(log', id) == Bumps(log, id) + 1
  {
    RunSnoc(actions, Advance(t, ok));
    BumpsSnoc(Run(actions).log, Bumped(id, BeginAttempt(Run(actions).s, id).1, false), id);
  }

  lemma NoMorePublishing(actions: seq<Action>, id: Id, g: Gen)
    requires g < Bumps(Run(actions).log, id) && Installed(id, g) !in Run(actions).log
    ensures !MayPublish(actions, id, g)
  {
    forall more | Bumps(Run(actions + more).log, id) <= U64_MAX
      ensures Installed(id, g) !in Run(actions + more).log
    {
      PassedNeverPublishes(actions, more, id, g);
    }
  }

  /** So a connect begun after the drop is voided too, if it is quick enough to begin between its sections. */
  lemma DropVoidsNewerConnect(id: Id)
    ensures exists actions ::
      var w := Run(actions);
      && w.log == [Bumped(id, 1, true), Bumped(id, 2, false)]
      && w.tasks == [Finished, Finished]
      && w.s == Tables(map[id := 2], map[], map[])
  {
    var a1 := [] + [Drop(id)];
    var a2 := a1 + [Connect(id, false)];
    var a3 := a2 + [Advance(0, true)];
    var a4 := a3 + [Advance(1, true)];
    RunSnoc([], Drop(id));
    assert Run(a1) == World(Tables(map[], map[], map[]), [Dropping(id)], [], [Unpublished(id, 0)]);
    RunSnoc(a1, Connect(id, false));
    assert Run(a2).tasks == [Dropping(id), Connecting(id, 1, false)];
    RunSnoc(a2, Advance(0, true));
    RunSnoc(a3, Advance(1, true));
    assert Run(a4).tasks == [Finished, Finished];
  }

  // ---------------------------------------------------------------- write channel

  predicate OpeningShell(t: Task, id: Id) {
    (t.Connecting? || t.Admitted?) && t.id == id
  }

  predicate ShellOpened(m: Mark, id: Id) {
    m.Opened? && m.id == id && m.tag != BASTION_TAG
  }

  /** Each attempt inserts its channel once: none it has inserted belongs to a connect still to open its shell. */
  ghost predicate OpenedOnce(w: World, id: Id) {
    && (forall k | 0 <= k < |w.trace| && ShellOpened(w.trace[k], id) :: w.trace[k].tag <= Bumps(w.log, id))
    && (forall k, u | 0 <= k < |w.trace| && 0 <= u < |w.tasks| && ShellOpened(w.trace[k], id)
                      && OpeningShell(w.tasks[u], id) :: w.tasks[u].gen != w.trace[k].tag)
    && (forall j, k | 0 <= j < k < |w.trace| && ShellOpened(w.trace[j], id) && ShellOpened(w.trace[k], id) ::
          w.trace[j].tag != w.trace[k].tag)
  }

  /** Every shell reader has the mark of its own insertion, and every such mark its reader, running or ended. */
  ghost predicate ShellsMarked(w: World) {
    && (forall t | 0 <= t < |w.tasks| && w.tasks[t].Shell? :: OpenedBy(w.trace, w.tasks[t].id, w.tasks[t].gen, t))
    && (forall k | 0 <= k < |w.trace| && w.trace[k].Opened? :: ReadBy(w.tasks, w.trace[k]))
  }

  ghost predicate OpenedBy(trace: seq<Mark>, id: Id, g: Gen, t: nat) {
    exists k :: 0 <= k < |trace| && trace[k] == Opened(id, g, t)
  }

  predicate ReadBy(tasks: seq<Task>, m: Mark)
    requires m.Opened?
  {
    m.task < |tasks| && (tasks[m.task] in {Shell(m.id, m.tag), Bastion(m.id), Finished})
  }

  /** A guarded removal of a shell's channel was by its own reader, which has ended, or for an attempt that the
      counter has passed. */
  ghost predicate ShutJustified(w: World, id: Id) {
    && (forall m | 0 <= m < |w.trace| && w.trace[m].Shut? && w.trace[m].id == id ::
          w.trace[m].tag < Bumps(w.log, id) || Ended(w, id, w.trace[m].tag))
    && (forall u | 0 <= u < |w.tasks| && w.tasks[u].Refused? && w.tasks[u].id == id ::
          w.tasks[u].gen < Bumps(w.log, id))
  }

  ghost predicate Ended(w: World, id: Id, g: Gen) {
    exists k :: 0 <= k < |w.trace| && w.trace[k].Opened? && w.trace[k].id == id && w.trace[k].tag == g
                && w.trace[k].task < |w.tasks| && w.tasks[w.trace[k].task].Finished?
  }

  lemma BumpsStep(w: World, a: Action, id: Id)
    ensures Bumps(w.log, id) <= Bumps(Step(w, a).log, id)
  {
    LogStep(w, a);
    assert Step(w, a).log[..|w.log|] == w.log;
    BumpsMonotone(Step(w, a).log, |w.log|, id);
  }

  lemma OpeningCases(w: World, a: Action, id: Id, u: nat)
    requires u < |Step(w, a).tasks| && OpeningShell(Step(w, a).tasks[u], id)
    ensures if u < |w.tasks| then OpeningShell(w.tasks[u], id) && w.tasks[u].gen == Step(w, a).tasks[u].gen
            else a.Connect? && a.id == id && Step(w, a).tasks[u].gen == BeginAttempt(w.s, id).1
  {
  }

  lemma ConnectIsNew(w: World, id: Id, interactive: bool)
    requires Inv(w, id) && Bumps(Step(w, Connect(id, interactive)).log, id) <= U64_MAX
    ensures BeginAttempt(w.s, id).1 > Bumps(w.log, id)
  {
    BumpsSnoc(w.log, Bumped(id, BeginAttempt(w.s, id).1, true), id);
  }

  /** Connects still to open their shell were there before, or begin at a generation not reached before. */
  lemma OpeningTasks(w: World, a: Action, id: Id, u: nat)
    requires Inv(w, id) && Bumps(Step(w, a).log, id) <= U64_MAX
    requires u < |Step(w, a).tasks| && OpeningShell(Step(w, a).tasks[u], id)
    ensures (u < |w.tasks| && OpeningShell(w.tasks[u], id) && w.tasks[u].gen == Step(w, a).tasks[u].gen)
            || Step(w, a).tasks[u].gen > Bumps(w.log, id)
  {
    OpeningCases(w, a, id, u);
    if u >= |w.tasks| {
      ConnectIsNew(w, id, a.interactive);
    }
  }

  predicate OpensShell(w: World, a: Action, id: Id) {
    a.Advance? && a.ok && a.task < |w.tasks| && w.tasks[a.task].Admitted? && w.tasks[a.task].id == id
  }

  lemma OtherMarks(w: World, a: Action, id: Id, k: nat)
    requires !OpensShell(w, a, id) && k < |Step(w, a).trace| && ShellOpened(Step(w, a).trace[k], id)
    ensures k < |w.trace| && w.trace[k] == Step(w, a).trace[k]
  {
    StepMarks(w, a);
  }

  lemma OpenedOnceOther(w: World, a: Action, id: Id)
    requires Inv(w, id) && Bumps(Step(w, a).log, id) <= U64_MAX && OpenedOnce(w, id) && !OpensShell(w, a, id)
    ensures OpenedOnce(Step(w, a), id)
  {
    var w' := Step(w, a);
    BumpsStep(w, a, id);
    forall k | 0 <= k < |w'.trace| && ShellOpened(w'.trace[k], id)
      ensures k < |w.trace| && w'.trace[k] == w.trace[k]
    {
      OtherMarks(w, a, id, k);
    }
    forall k, u | 0 <= k < |w'.trace| && 0 <= u < |w'.tasks| && ShellOpened(w'.trace[k], id)
                  && OpeningShell(w'.tasks[u], id)
      ensures w'.tasks[u].gen != w'.trace[k].tag
    {
      OpeningTasks(w, a, id, u);
    }
  }

  lemma OpenedOnceShell(w: World, a: Action, id: Id)
    requires Inv(w, id) && Bumps(w.log, id) <= U64_MAX && OpenedOnce(w, id) && OpensShell(w, a, id)
    ensures OpenedOnce(Step(w, a), id)
  {
    var w', g := Step(w, a), w.tasks[a.task].gen;
    assert TaskFaithful(w.tasks[a.task], w.log, id) && Before(w.tasks[a.task], id);
    assert w'.trace == w.trace + [Opened(id, g, |w.tasks|)];
    forall u | 0 <= u < |w'.tasks| && OpeningShell(w'.tasks[u], id)
      ensures u < |w.tasks| && u != a.task && w'.tasks[u] == w.tasks[u] && w.tasks[u].gen != g
    {
      assert Before(w.tasks[u], id);
    }
  }

  lemma {:induction false} OpensOnce(actions: seq<Action>, id: Id)
    requires Bumps(Run(actions).log, id) <= U64_MAX
    ensures OpenedOnce(Run(actions), id)
  {
    if actions != [] {
      var before, a := actions[..|actions| - 1], actions[|actions| - 1];
      BumpsStep(Run(before), a, id);
      OpensOnce(before, id);
      InvHolds(before, id);
      if OpensShell(Run(before), a, id) {
        OpenedOnceShell(Run(before), a, id);
      } else {
        OpenedOnceOther(Run(before), a, id);
      }
    }
  }

  /** A reader only ends. */
  lemma ReadersEnd(w: World, a: Action, u: nat)
    requires u < |w.tasks| && (w.tasks[u].Shell? || w.tasks[u].Bastion? || w.tasks[u].Finished?)
    ensures u < |Step(w, a).tasks| && (Step(w, a).tasks[u] == w.tasks[u] || Step(w, a).tasks[u].Finished?)
  {
  }

  lemma NewShell(w: World, a: Action, t: nat)
    requires t < |Step(w, a).tasks| && Step(w, a).tasks[t].Shell?
    ensures if t < |w.tasks| then Step(w, a).tasks[t] == w.tasks[t] else
              Step(w, a).trace == w.trace + [Opened(Step(w, a).tasks[t].id, Step(w, a).tasks[t].gen, t)]
  {
  }

  lemma NewOpened(w: World, a: Action)
    requires |Step(w, a).trace| > |w.trace| && Step(w, a).trace[|w.trace|].Opened?
    ensures ReadBy(Step(w, a).tasks, Step(w, a).trace[|w.trace|])
  {
  }

  lemma ShellsMarkedStep(w: World, a: Action)
    requires ShellsMarked(w)
    ensures ShellsMarked(Step(w, a))
  {
    var w' := Step(w, a);
    StepMarks(w, a);
    forall t | 0 <= t < |w'.tasks| && w'.tasks[t].Shell?
      ensures OpenedBy(w'.trace, w'.tasks[t].id, w'.tasks[t].gen, t)
    {
      NewShell(w, a, t);
      if t < |w.tasks| {
        var k :| 0 <= k < |w.trace| && w.trace[k] == Opened(w.tasks[t].id, w.tasks[t].gen, t);
        assert w'.trace[k] == w.trace[k];
      } else {
        assert w'.trace[|w.trace|] == Opened(w'.tasks[t].id, w'.tasks[t].gen, t);
      }
    }
    forall k | 0 <= k < |w'.trace| && w'.trace[k].Opened?
      ensures ReadBy(w'.tasks, w'.trace[k])
    {
      if k < |w.trace| {
        assert w'.trace[k] == w.trace[k];
        ReadersEnd(w, a, w.trace[k].task);
      } else {
        NewOpened(w, a);
      }
    }
  }

  lemma {:induction false} ShellsAreMarked(actions: seq<Action>)
    ensures ShellsMarked(Run(actions))
  {
    if actions != [] {
      ShellsAreMarked(actions[..|actions| - 1]);
      ShellsMarkedStep(Run(actions[..|actions| - 1]), actions[|actions| - 1]);
    }
  }

  lemma {:induction false} ChannelStands(trace: seq<Mark>, id: Id, k: nat)
    requires k < |trace| && trace[k].Opened? && trace[k].id == id
    requires forall m | k < m < |trace| :: !OfChannel(trace[m], id)
    ensures ChannelIn(trace, id) == Some(trace[k].tag)
  {
    if k < |trace| - 1 {
      ChannelStands(trace[..|trace| - 1], id, k);
    }
  }

  lemma {:induction false} ChannelFrom(trace: seq<Mark>, id: Id, g: Gen)
    requires ChannelIn(trace, id) == Some(g)
    ensures exists k :: 0 <= k < |trace| && trace[k].Opened? && trace[k].id == id && trace[k].tag == g
                        && forall m | k < m < |trace| :: !OfChannel(trace[m], id)
  {
    var n := |trace| - 1;
    if OfChannel(trace[n], id) {
      assert trace[n].Opened?;
    } else {
      ChannelFrom(trace[..n], id, g);
      var k :| 0 <= k < n && trace[..n][k].Opened? && trace[..n][k].id == id && trace[..n][k].tag == g
               && forall m | k < m < n :: !OfChannel(trace[..n][m], id);
      assert trace[k].tag == g && forall m | k < m < n :: trace[m] == trace[..n][m];
    }
  }

  /** While a shell's reader runs, the write channel of its id carries its generation exactly if nothing was
      inserted for the id, and no entry of it removed, since the shell's own insertion. */
  lemma ShellHoldsChannelIff(actions: seq<Action>, t: nat, k: nat)
    requires t < |Run(actions).tasks| && Run(actions).tasks[t].Shell?
    requires Bumps(Run(actions).log, Run(actions).tasks[t].id) <= U64_MAX
    requires var task := Run(actions).tasks[t];
             k < |Run(actions).trace| && Run(actions).trace[k] == Opened(task.id, task.gen, t)
    ensures var w, task := Run(actions), Run(actions).tasks[t];
            Lookup(w.s.channels, task.id) == Some(task.gen)
            <==> forall m | k < m < |w.trace| :: !OfChannel(w.trace[m], task.id)
  {
    var w, id, g := Run(actions), Run(actions).tasks[t].id, Run(actions).tasks[t].gen;
    InvHolds(actions, id);
    assert TaskFaithful(w.tasks[t], w.log, id);
    TablesFollowTrace(actions, id);
    OpensOnce(actions, id);
    if Lookup(w.s.channels, id) == Some(g) {
      ChannelFrom(w.trace, id, g);
      var j :| 0 <= j < |w.trace| && w.trace[j].Opened? && w.trace[j].id == id && w.trace[j].tag == g
               && forall m | j < m < |w.trace| :: !OfChannel(w.trace[m], id);
      assert ShellOpened(w.trace[j], id) && ShellOpened(w.trace[k], id);
      assert j == k;
    } else if forall m | k < m < |w.trace| :: !OfChannel(w.trace[m], id) {
      ChannelStands(w.trace, id, k);
    }
  }

  /** And there is such an insertion. */
  lemma ShellHasInserted(actions: seq<Action>, t: nat)
    requires t < |Run(actions).tasks| && Run(actions).tasks[t].Shell?
    ensures var w, task := Run(actions), Run(actions).tasks[t];
            exists k :: 0 <= k < |w.trace| && w.trace[k] == Opened(task.id, task.gen, t)
  {
    ShellsAreMarked(actions);
    assert OpenedBy(Run(actions).trace, Run(actions).tasks[t].id, Run(actions).tasks[t].gen, t);
  }

  /** A removal mark added by this section for the channel of `id`, and why it may be. */
  lemma NewShut(w: World, a: Action, id: Id)
    requires Inv(w, id) && Bumps(w.log, id) <= U64_MAX && ShellsMarked(w) && ShutJustified(w, id)
    requires |Step(w, a).trace| > |w.trace|
    requires Step(w, a).trace[|w.trace|].Shut? && Step(w, a).trace[|w.trace|].id == id
    ensures Step(w, a).trace[|w.trace|].tag < Bumps(w.log, id)
            || Ended(Step(w, a), id, Step(w, a).trace[|w.trace|].tag)
  {
    var t, w' := a.task, Step(w, a);
    assert TaskFaithful(w.tasks[t], w.log, id);
    if w.tasks[t].Shell? {
      var k :| 0 <= k < |w.trace| && w.trace[k] == Opened(id, w.tasks[t].gen, t);
      assert w'.trace[k] == w.trace[k] && w'.tasks[t] == Finished;
    }
  }

  lemma EndedStays(w: World, a: Action, id: Id, g: Gen)
    requires Ended(w, id, g)
    ensures Ended(Step(w, a), id, g)
  {
    var k :| 0 <= k < |w.trace| && w.trace[k].Opened? && w.trace[k].id == id && w.trace[k].tag == g
             && w.trace[k].task < |w.tasks| && w.tasks[w.trace[k].task].Finished?;
    StepMarks(w, a);
    ReadersEnd(w, a, w.trace[k].task);
    assert Step(w, a).trace[k] == w.trace[k];
  }

  lemma NewRefused(w: World, a: Action, id: Id, u: nat)
    requires Inv(w, id) && Bumps(w.log, id) <= U64_MAX && ShutJustified(w, id)
    requires u < |Step(w, a).tasks| && Step(w, a).tasks[u].Refused? && Step(w, a).tasks[u].id == id
    ensures Step(w, a).tasks[u].gen < Bumps(w.log, id)
  {
    RefusedCases(w, a, id, u);
    if w.tasks[u].Ready? {
      assert TaskFaithful(w.tasks[u], w.log, id);
      FaithfulIsReached(w, w.tasks[u], id);
    }
  }

  lemma RefusedCases(w: World, a: Action, id: Id, u: nat)
    requires u < |Step(w, a).tasks| && Step(w, a).tasks[u].Refused? && Step(w, a).tasks[u].id == id
    ensures u < |w.tasks| && (w.tasks[u] == Step(w, a).tasks[u]
                              || (w.tasks[u] == Ready(id, Step(w, a).tasks[u].gen)
                                  && Lookup(w.s.attempts, id) != Some(w.tasks[u].gen)))
  {
  }

  lemma ShutJustifiedStep(w: World, a: Action, id: Id)
    requires Inv(w, id) && Bumps(Step(w, a).log, id) <= U64_MAX && ShellsMarked(w) && ShutJustified(w, id)
    ensures ShutJustified(Step(w, a), id)
  {
    var w' := Step(w, a);
    BumpsStep(w, a, id);
    StepMarks(w, a);
    forall m | 0 <= m < |w'.trace| && w'.trace[m].Shut? && w'.trace[m].id == id
      ensures w'.trace[m].tag < Bumps(w'.log, id) || Ended(w', id, w'.trace[m].tag)
    {
      if m < |w.trace| {
        assert w'.trace[m] == w.trace[m];
        if Ended(w, id, w.trace[m].tag) {
          EndedStays(w, a, id, w.trace[m].tag);
        }
      } else {
        NewShut(w, a, id);
      }
    }
    forall u | 0 <= u < |w'.tasks| && w'.tasks[u].Refused? && w'.tasks[u].id == id
      ensures w'.tasks[u].gen < Bumps(w'.log, id)
    {
      NewRefused(w, a, id, u);
    }
  }

  lemma {:induction false} ShutsAreJustified(actions: seq<Action>, id: Id)
    requires Bumps(Run(actions).log, id) <= U64_MAX
    ensures ShutJustified(Run(actions), id)
  {
    if actions != [] {
      var before, a := actions[..|actions| - 1], actions[|actions| - 1];
      BumpsStep(Run(before), a, id);
      ShutsAreJustified(before, id);
      InvHolds(before, id);
      ShellsAreMarked(before);
      ShutJustifiedStep(Run(before), a, id);
    }
  }

  /** A guarded removal finds the tag it looks for. */
  ghost predicate ShutFinds(trace: seq<Mark>) {
    forall m | 0 <= m < |trace| && trace[m].Shut? :: ChannelIn(trace[..m], trace[m].id) == Some(trace[m].tag)
  }

  lemma NewShutFinds(w: World, a: Action)
    requires |Step(w, a).trace| > |w.trace| && Step(w, a).trace[|w.trace|].Shut?
    ensures Lookup(w.s.channels, Step(w, a).trace[|w.trace|].id) == Some(Step(w, a).trace[|w.trace|].tag)
  {
  }

  lemma {:induction false} ShutsFind(actions: seq<Action>)
    ensures ShutFinds(Run(actions).trace)
  {
    if actions != [] {
      var before, a := actions[..|actions| - 1], actions[|actions| - 1];
      var w, w' := Run(before), Step(Run(before), a);
      ShutsFind(before);
      StepMarks(w, a);
      forall m | 0 <= m < |w'.trace| && w'.trace[m].Shut?
        ensures ChannelIn(w'.trace[..m], w'.trace[m].id) == Some(w'.trace[m].tag)
      {
        if m < |w.trace| {
          assert w'.trace[..m] == w.trace[..m] && w'.trace[m] == w.trace[m];
        } else {
          NewShutFinds(w, a);
          assert w'.trace[..m] == w.trace;
          TablesFollowTrace(before, w'.trace[m].id);
        }
      }
    }
  }

  /** Without another insertion or an unguarded removal, only a removal that looks for the tag finds it. */
  lemma {:induction false} NoOtherShut(trace: seq<Mark>, id: Id, k: nat, n: nat)
    requires ShutFinds(trace) && k < n <= |trace| && trace[k].Opened? && trace[k].id == id
    requires forall m | k < m < n :: !(OfChannel(trace[m], id) && (trace[m].Opened? || trace[m].Cut?))
    requires forall m | k < m < n :: !(trace[m].Shut? && trace[m].id == id && trace[m].tag == trace[k].tag)
    ensures forall m | k < m < n :: !OfChannel(trace[m], id)
    decreases n
  {
    if k < n - 1 {
      NoOtherShut(trace, id, k, n - 1);
      ChannelStands(trace[..n - 1], id, k);
    }
  }

  /** While the attempt is current and its shell's reader runs, no guarded removal costs it the channel: it has it
      exactly if no superseded attempt and no bastion inserted its own since, and no bastion ended since. */
  lemma CurrentShellHoldsChannelIff(actions: seq<Action>, t: nat, k: nat)
    requires t < |Run(actions).tasks| && Run(actions).tasks[t].Shell?
    requires Bumps(Run(actions).log, Run(actions).tasks[t].id) <= U64_MAX
    requires var task := Run(actions).tasks[t];
             && Lookup(Run(actions).s.attempts, task.id) == Some(task.gen)
             && k < |Run(actions).trace| && Run(actions).trace[k] == Opened(task.id, task.gen, t)
    ensures var w, task := Run(actions), Run(actions).tasks[t];
            && (Lookup(w.s.channels, task.id) == Some(task.gen)
                <==> forall m | k < m < |w.trace| :: !(w.trace[m].Opened? && w.trace[m].id == task.id)
                                                   && !(w.trace[m].Cut? && w.trace[m].id == task.id))
            && (forall m | k < m < |w.trace| && w.trace[m].Opened? && w.trace[m].id == task.id ::
                  w.trace[m].tag < task.gen)
  {
    var w, id, g := Run(actions), Run(actions).tasks[t].id, Run(actions).tasks[t].gen;
    InvHolds(actions, id);
    assert TaskFaithful(w.tasks[t], w.log, id);
    OpensOnce(actions, id);
    NeverShut(actions, t, k, id, g);
    ShellHoldsChannelIff(actions, t, k);
    if forall m | k < m < |w.trace| :: !(w.trace[m].Opened? && w.trace[m].id == id)
                                       && !(w.trace[m].Cut? && w.trace[m].id == id) {
      ShutsFind(actions);
      NoOtherShut(w.trace, id, k, |w.trace|);
    }
    assert ShellOpened(w.trace[k], id);
  }

  lemma NeverShut(actions: seq<Action>, t: nat, k: nat, id: Id, g: Gen)
    requires t < |Run(actions).tasks| && Run(actions).tasks[t] == Shell(id, g)
    requires Bumps(Run(actions).log, id) <= U64_MAX && Lookup(Run(actions).s.attempts, id) == Some(g)
    requires k < |Run(actions).trace| && Run(actions).trace[k] == Opened(id, g, t)
    ensures forall m | 0 <= m < |Run(actions).trace| ::
              !(Run(actions).trace[m].Shut? && Run(actions).trace[m].id == id && Run(actions).trace[m].tag == g)
  {
    var w := Run(actions);
    InvHolds(actions, id);
    assert TaskFaithful(w.tasks[t], w.log, id);
    ShutsAreJustified(actions, id);
    OpensOnce(actions, id);
    StillRunning(w, t, k, id, g);
  }

  lemma StillRunning(w: World, t: nat, k: nat, id: Id, g: Gen)
    requires OpenedOnce(w, id) && g != BASTION_TAG
    requires t < |w.tasks| && w.tasks[t] == Shell(id, g) && k < |w.trace| && w.trace[k] == Opened(id, g, t)
    ensures !Ended(w, id, g)
  {
    assert ShellOpened(w.trace[k], id);
    assert forall j | 0 <= j < |w.trace| && w.trace[j].Opened? && w.trace[j].id == id && w.trace[j].tag == g ::
        ShellOpened(w.trace[j], id) && j == k;
  }
}
