/** How bastions, failed connects, disconnects and drops of SshAttempts end: what each leaves behind, in every run and
    every continuation. */
module SshEnds {
  import opened Wrappers
  import opened SshAttempts
  import opened SshTables

  // ---------------------------------------------------------------- the tasks behind write channels

  predicate Owns(task: Task, id: Id, tag: Gen) {
    if tag == BASTION_TAG then task == Bastion(id) else task == Shell(id, tag)
  }

  ghost predicate Owned(w: World, id: Id, tag: Gen) {
    exists t :: 0 <= t < |w.tasks| && Owns(w.tasks[t], id, tag)
  }

  /** Every write channel is that of a running shell or bastion, and connects never carry the tag of bastions. */
  ghost predicate ChannelsOwned(w: World) {
    && (forall id | id in w.s.channels :: Owned(w, id, w.s.channels[id]))
    && (forall t | 0 <= t < |w.tasks| && (w.tasks[t].Connecting? || w.tasks[t].Admitted?) ::
          w.tasks[t].gen != BASTION_TAG)
  }

  predicate NewOwner(w: World, a: Action, id: Id, tag: Gen) {
    |Step(w, a).tasks| > |w.tasks| && Owns(Step(w, a).tasks[|w.tasks|], id, tag)
  }

  /** Where the entry of `id` comes from: it was there and its owner's section was not this one, or it is new. */
  lemma ChannelSection(w: World, a: Action, id: Id, tag: Gen)
    requires ChannelsOwned(w) && Lookup(Step(w, a).s.channels, id) == Some(tag)
    ensures || NewOwner(w, a, id, tag)
            || (Lookup(w.s.channels, id) == Some(tag)
                && !(a.Advance? && a.task < |w.tasks| && Owns(w.tasks[a.task], id, tag)))
  {
    if a.Advance? && a.task < |w.tasks| {
      ChannelTask(w, a.task, a.ok, id, tag);
    }
  }

  lemma ChannelTask(w: World, t: nat, ok: bool, id: Id, tag: Gen)
    requires t < |w.tasks| && (w.tasks[t].Admitted? ==> w.tasks[t].gen != BASTION_TAG)
    requires Lookup(AdvanceTask(w, t, ok).s.channels, id) == Some(tag)
    ensures || NewOwner(w, Advance(t, ok), id, tag)
            || (Lookup(w.s.channels, id) == Some(tag) && !Owns(w.tasks[t], id, tag))
  {
    if w.tasks[t].Admitted? && ok && w.tasks[t].id == id {
      assert AdvanceTask(w, t, ok).tasks[|w.tasks|] == Shell(id, w.tasks[t].gen);
    }
  }

  /** A task moves by its own sections only. */
  lemma OnlyItsOwn(w: World, a: Action, t: nat)
    requires t < |w.tasks| && !(a.Advance? && a.task == t)
    ensures t < |Step(w, a).tasks| && Step(w, a).tasks[t] == w.tasks[t]
  {
  }

  lemma NewGens(w: World, a: Action)
    requires ChannelsOwned(w)
    ensures var w' := Step(w, a);
            forall t | 0 <= t < |w'.tasks| && (w'.tasks[t].Connecting? || w'.tasks[t].Admitted?) ::
              w'.tasks[t].gen != BASTION_TAG
  {
  }

  lemma ChannelsOwnedStep(w: World, a: Action)
    requires ChannelsOwned(w)
    ensures ChannelsOwned(Step(w, a))
  {
    var w' := Step(w, a);
    NewGens(w, a);
    forall id | id in w'.s.channels
      ensures Owned(w', id, w'.s.channels[id])
    {
      var tag := w'.s.channels[id];
      ChannelSection(w, a, id, tag);
      if !NewOwner(w, a, id, tag) {
        var t :| 0 <= t < |w.tasks| && Owns(w.tasks[t], id, tag);
        OnlyItsOwn(w, a, t);
      }
    }
  }

  /** In every run each write channel is that of a running shell of its generation, or of a running bastion. */
  lemma {:induction false} ChannelsHaveOwners(actions: seq<Action>)
    ensures ChannelsOwned(Run(actions))
  {
    if actions != [] {
      ChannelsHaveOwners(actions[..|actions| - 1]);
      ChannelsOwnedStep(Run(actions[..|actions| - 1]), actions[|actions| - 1]);
    }
  }

  /** The end of a shell, or of a connect whose publication was refused, leaves no write channel of its generation, and
      touches nothing else. */
  lemma ShellEnds(actions: seq<Action>, t: nat, ok: bool)
    requires t < |Run(actions).tasks| && (Run(actions).tasks[t].Shell? || Run(actions).tasks[t].Refused?)
    ensures var w, task, w' := Run(actions), Run(actions).tasks[t], Run(actions + [Advance(t, ok)]);
            && Lookup(w'.s.channels, task.id) != Some(task.gen) && w'.tasks == w.tasks[t := Finished]
            && (forall id | Lookup(w.s.channels, id) != Lookup(w'.s.channels, id) ::
                  id == task.id && Lookup(w.s.channels, id) == Some(task.gen) && id !in w'.s.channels)
            && w'.s.sessions == w.s.sessions && w'.s.attempts == w.s.attempts && w'.log == w.log
  {
    RunSnoc(actions, Advance(t, ok));
    EndSection(Run(actions), t, ok);
  }

  lemma EndSection(w: World, t: nat, ok: bool)
    requires t < |w.tasks| && (w.tasks[t].Shell? || w.tasks[t].Refused?)
    ensures var w', task := Step(w, Advance(t, ok)), w.tasks[t];
            && w'.s == w.s.(channels := w'.s.channels) && w'.tasks == w.tasks[t := Finished] && w'.log == w.log
            && w'.s.channels == (if Lookup(w.s.channels, task.id) == Some(task.gen) then w.s.channels - {task.id}
                                 else w.s.channels)
  {
  }

  /** The end of a bastion leaves its id without a write channel, whosever it was, and touches nothing else. */
  lemma BastionEnds(actions: seq<Action>, t: nat, ok: bool)
    requires t < |Run(actions).tasks| && Run(actions).tasks[t].Bastion?
    ensures var w, id, w' := Run(actions), Run(actions).tasks[t].id, Run(actions + [Advance(t, ok)]);
            && id !in w'.s.channels && w'.tasks == w.tasks[t := Finished]
            && (forall other | other != id :: Lookup(w'.s.channels, other) == Lookup(w.s.channels, other))
            && w'.s.sessions == w.s.sessions && w'.s.attempts == w.s.attempts && w'.log == w.log
  {
    RunSnoc(actions, Advance(t, ok));
  }

  lemma ShellBesideBastion(id: Id) returns (a4: seq<Action>)
    ensures Run(a4) == World(Tables(map[id := 1], map[], map[id := 1]), [Bastion(id), Ready(id, 1), Shell(id, 1)],
                             [Bumped(id, 1, true)], [Opened(id, BASTION_TAG, 0), Opened(id, 1, 2)])
  {
    var a1 := [] + [OpenBastion(id)];
    var a2 := a1 + [Connect(id, true)];
    var a3 := a2 + [Advance(1, true)];
    a4 := a3 + [Advance(1, true)];
    RunSnoc([], OpenBastion(id));
    RunSnoc(a1, Connect(id, true));
    assert Run(a2).tasks == [Bastion(id), Connecting(id, 1, true)];
    RunSnoc(a2, Advance(1, true));
    assert Run(a3).tasks == [Bastion(id), Admitted(id, 1)];
    RunSnoc(a3, Advance(1, true));
  }

  /** A bastion whose end takes the write channel of the live shell. */
  lemma BastionTakesLiveChannel(id: Id)
    ensures exists actions ::
      var w := Run(actions);
      && w.tasks == [Finished, Finished, Shell(id, 1)]
      && w.s == Tables(map[id := 1], map[id := 1], map[])
  {
    var a4 := ShellBesideBastion(id);
    var a5 := a4 + [Advance(1, true)];
    var a6 := a5 + [Advance(0, true)];
    RunSnoc(a4, Advance(1, true));
    assert Run(a5).s == Tables(map[id := 1], map[id := 1], map[id := 1]);
    RunSnoc(a5, Advance(0, true));
    assert Run(a6).tasks == [Finished, Finished, Shell(id, 1)];
  }

  // ---------------------------------------------------------------- connects that fail or come too late

  /** Attempt `g` has neither opened a shell nor published, and no task of it can any more: one that still connects is
      behind the counter. */
  ghost predicate Barred(w: World, id: Id, g: Gen) {
    && g <= Bumps(w.log, id) && Installed(id, g) !in w.log
    && (forall k | 0 <= k < |w.trace| :: !ShellOf(w.trace[k], id, g))
    && (forall t | 0 <= t < |w.tasks| && Before(w.tasks[t], id) && w.tasks[t].gen == g ::
          w.tasks[t].Connecting? && g < Bumps(w.log, id))
  }

  predicate ShellOf(m: Mark, id: Id, g: Gen) {
    m.Opened? && m.id == id && m.tag == g
  }

  lemma BarredLog(w: World, a: Action, id: Id, g: Gen)
    requires Barred(w, id, g)
    ensures Installed(id, g) !in Step(w, a).log
  {
  }

  lemma BarredTrace(w: World, a: Action, id: Id, g: Gen)
    requires Barred(w, id, g) && g != BASTION_TAG
    ensures forall k | 0 <= k < |Step(w, a).trace| :: !ShellOf(Step(w, a).trace[k], id, g)
  {
    StepMarks(w, a);
  }

  /** Where a task that has not published yet comes from. */
  lemma BeforeSection(w: World, a: Action, id: Id, t: nat)
    requires t < |Step(w, a).tasks| && Before(Step(w, a).tasks[t], id)
    ensures if t < |w.tasks| then
              && Before(w.tasks[t], id) && w.tasks[t].gen == Step(w, a).tasks[t].gen
              && (w.tasks[t].Connecting? && !Step(w, a).tasks[t].Connecting? ==>
                    Lookup(w.s.attempts, id) == Some(w.tasks[t].gen))
            else
              a.Connect? && a.id == id && Step(w, a).tasks[t] == Connecting(id, BeginAttempt(w.s, id).1, a.interactive)
  {
  }

  lemma BarredTasks(w: World, a: Action, id: Id, g: Gen, t: nat)
    requires Barred(w, id, g) && Inv(w, id) && Bumps(Step(w, a).log, id) <= U64_MAX
    requires t < |Step(w, a).tasks| && Before(Step(w, a).tasks[t], id) && Step(w, a).tasks[t].gen == g
    ensures Step(w, a).tasks[t].Connecting? && g < Bumps(Step(w, a).log, id)
  {
    BeforeSection(w, a, id, t);
    BumpsStep(w, a, id);
    if t >= |w.tasks| {
      BumpsSnoc(w.log, Bumped(id, BeginAttempt(w.s, id).1, true), id);
    }
  }

  lemma BarredStep(w: World, a: Action, id: Id, g: Gen)
    requires Barred(w, id, g) && g != BASTION_TAG && Inv(w, id) && Bumps(Step(w, a).log, id) <= U64_MAX
    ensures Barred(Step(w, a), id, g)
  {
    BumpsStep(w, a, id);
    BarredLog(w, a, id, g);
    BarredTrace(w, a, id, g);
    forall t | 0 <= t < |Step(w, a).tasks| && Before(Step(w, a).tasks[t], id) && Step(w, a).tasks[t].gen == g
      ensures Step(w, a).tasks[t].Connecting? && g < Bumps(Step(w, a).log, id)
    {
      BarredTasks(w, a, id, g, t);
    }
  }

  lemma {:induction false} StaysBarred(actions: seq<Action>, more: seq<Action>, id: Id, g: Gen)
    requires Barred(Run(actions), id, g) && g != BASTION_TAG && Bumps(Run(actions + more).log, id) <= U64_MAX
    ensures Barred(Run(actions + more), id, g)
    decreases |more|
  {
    if more == [] {
      assert actions + more == actions;
    } else {
      var front, last := more[..|more| - 1], more[|more| - 1];
      assert actions + more == (actions + front) + [last];
      RunSnoc(actions + front, last);
      BumpsStep(Run(actions + front), last, id);
      StaysBarred(actions, front, id, g);
      InvHolds(actions + front, id);
      BarredStep(Run(actions + front), last, id, g);
    }
  }

  lemma GenIsPositive(actions: seq<Action>, u: nat)
    requires u < |Run(actions).tasks| && (Run(actions).tasks[u].Connecting? || Run(actions).tasks[u].Admitted?)
    ensures Run(actions).tasks[u].gen != BASTION_TAG
  {
    ChannelsHaveOwners(actions);
  }

  /** A connect that was superseded before its check ends there: it opens no shell and never publishes. */
  lemma SupersededOpensNothing(actions: seq<Action>, more: seq<Action>, u: nat)
    requires u < |Run(actions).tasks| && Run(actions).tasks[u].Connecting?
    requires var task := Run(actions).tasks[u];
             && task.gen < Bumps(Run(actions).log, task.id) && Bumps(Run(actions + more).log, task.id) <= U64_MAX
    ensures var w, task := Run(actions + more), Run(actions).tasks[u];
            && Installed(task.id, task.gen) !in w.log
            && forall k | 0 <= k < |w.trace| :: !ShellOf(w.trace[k], task.id, task.gen)
  {
    var id, g := Run(actions).tasks[u].id, Run(actions).tasks[u].gen;
    BumpsOnlyGrow(actions, more, id);
    IsBarred(actions, u);
    GenIsPositive(actions, u);
    StaysBarred(actions, more, id, g);
  }

  lemma BumpsOnlyGrow(actions: seq<Action>, more: seq<Action>, id: Id)
    ensures Bumps(Run(actions).log, id) <= Bumps(Run(actions + more).log, id)
  {
    LogOnlyGrows(actions, more);
    var log := Run(actions + more).log;
    assert log[..|Run(actions).log|] == Run(actions).log;
    BumpsMonotone(log, |Run(actions).log|, id);
  }

  lemma IsBarred(actions: seq<Action>, u: nat)
    requires u < |Run(actions).tasks| && Run(actions).tasks[u].Connecting?
    requires var task := Run(actions).tasks[u]; task.gen < Bumps(Run(actions).log, task.id) <= U64_MAX
    ensures Barred(Run(actions), Run(actions).tasks[u].id, Run(actions).tasks[u].gen)
  {
    var w, id, g := Run(actions), Run(actions).tasks[u].id, Run(actions).tasks[u].gen;
    InvHolds(actions, id);
    OpensOnce(actions, id);
    GenIsPositive(actions, u);
    assert TaskFaithful(w.tasks[u], w.log, id);
    forall k | 0 <= k < |w.trace|
      ensures !ShellOf(w.trace[k], id, g)
    {
      if ShellOf(w.trace[k], id, g) {
        assert ShellOpened(w.trace[k], id) && OpeningShell(w.tasks[u], id);
      }
    }
  }

  /** A connect whose I/O fails ends there, too. */
  lemma FailedOpensNothing(actions: seq<Action>, more: seq<Action>, u: nat)
    requires u < |Run(actions).tasks| && (Run(actions).tasks[u].Connecting? || Run(actions).tasks[u].Admitted?)
    requires Bumps(Run(actions + [Advance(u, false)] + more).log, Run(actions).tasks[u].id) <= U64_MAX
    ensures var w, task := Run(actions + [Advance(u, false)] + more), Run(actions).tasks[u];
            && Installed(task.id, task.gen) !in w.log
            && forall k | 0 <= k < |w.trace| :: !ShellOf(w.trace[k], task.id, task.gen)
  {
    var id, g := Run(actions).tasks[u].id, Run(actions).tasks[u].gen;
    BumpsOnlyGrow(actions + [Advance(u, false)], more, id);
    BumpsOnlyGrow(actions, [Advance(u, false)], id);
    FailureBars(actions, u);
    GenIsPositive(actions, u);
    StaysBarred(actions + [Advance(u, false)], more, id, g);
  }

  lemma FailureBars(actions: seq<Action>, u: nat)
    requires u < |Run(actions).tasks| && (Run(actions).tasks[u].Connecting? || Run(actions).tasks[u].Admitted?)
    requires Bumps(Run(actions).log, Run(actions).tasks[u].id) <= U64_MAX
    ensures Barred(Run(actions + [Advance(u, false)]), Run(actions).tasks[u].id, Run(actions).tasks[u].gen)
  {
    var w, id, g := Run(actions), Run(actions).tasks[u].id, Run(actions).tasks[u].gen;
    InvHolds(actions, id);
    OpensOnce(actions, id);
    GenIsPositive(actions, u);
    RunSnoc(actions, Advance(u, false));
    assert TaskFaithful(w.tasks[u], w.log, id) && Before(w.tasks[u], id);
    FailureFinishes(w, u);
    forall k | 0 <= k < |w.trace|
      ensures !ShellOf(w.trace[k], id, g)
    {
      if ShellOf(w.trace[k], id, g) {
        assert ShellOpened(w.trace[k], id) && OpeningShell(w.tasks[u], id);
      }
    }
  }

  lemma FailureFinishes(w: World, u: nat)
    requires u < |w.tasks| && (w.tasks[u].Connecting? || w.tasks[u].Admitted?)
    ensures Step(w, Advance(u, false)) == w.(tasks := w.tasks[u := Finished])
  {
  }

  // ---------------------------------------------------------------- disconnects and drops

  /** A disconnect for attempt `g` is still to advance the counter, or the counter has left `g` behind. */
  ghost predicate DisconnectGoesOn(w: World, t: nat, id: Id, g: Gen) {
    && t < |w.tasks| && 1 <= g <= Bumps(w.log, id)
    && (w.tasks[t] == Leaving(id, Some(g)) || w.tasks[t] == Cleared(id, g)
        || (g < Bumps(w.log, id) && (w.tasks[t].Finished? || (w.tasks[t].Invalidated? && w.tasks[t].id == id))))
  }

  lemma DisconnectSection(w: World, a: Action, t: nat, id: Id, g: Gen)
    requires DisconnectGoesOn(w, t, id, g) && CounterFaithful(w, id) && Bumps(Step(w, a).log, id) <= U64_MAX
    ensures DisconnectGoesOn(Step(w, a), t, id, g)
  {
    BumpsStep(w, a, id);
    if a.Advance? && a.task == t {
      if w.tasks[t] == Cleared(id, g) {
        AnyClearedSection(w, t, a.ok, id, g);
      } else {
        OtherDisconnectSection(w, t, a.ok, id, g);
      }
    } else {
      OnlyItsOwn(w, a, t);
    }
  }

  lemma AnyClearedSection(w: World, t: nat, ok: bool, id: Id, g: Gen)
    requires DisconnectGoesOn(w, t, id, g) && w.tasks[t] == Cleared(id, g) && CounterFaithful(w, id)
    requires Bumps(Step(w, Advance(t, ok)).log, id) <= U64_MAX
    ensures DisconnectGoesOn(Step(w, Advance(t, ok)), t, id, g)
  {
    if Lookup(w.s.attempts, id) == Some(g) {
      BumpsSnoc(w.log, Bumped(id, NextGen(g), false), id);
    }
  }

  lemma OtherDisconnectSection(w: World, t: nat, ok: bool, id: Id, g: Gen)
    requires DisconnectGoesOn(w, t, id, g) && w.tasks[t] != Cleared(id, g)
    ensures DisconnectGoesOn(Step(w, Advance(t, ok)), t, id, g)
  {
    assert Step(w, Advance(t, ok)).log == w.log;
  }

  lemma CounterHolds(actions: seq<Action>, id: Id)
    requires Bumps(Run(actions).log, id) <= U64_MAX
    ensures CounterFaithful(Run(actions), id)
  {
    InvHolds(actions, id);
  }

  lemma {:induction false} DisconnectContinues(all: seq<Action>, n: nat, t: nat, id: Id, g: Gen)
    requires n <= |all| && DisconnectGoesOn(Run(all[..n]), t, id, g) && Bumps(Run(all).log, id) <= U64_MAX
    ensures DisconnectGoesOn(Run(all), t, id, g)
    decreases |all|
  {
    if n == |all| {
      assert all[..n] == all;
    } else {
      var front, last := all[..|all| - 1], all[|all| - 1];
      assert front[..n] == all[..n];
      BumpsStep(Run(front), last, id);
      DisconnectContinues(front, n, t, id, g);
      CounterHolds(front, id);
      DisconnectSection(Run(front), last, t, id, g);
    }
  }

  lemma DisconnectStarts(actions: seq<Action>, t: nat, id: Id, g: Gen)
    requires t < |Run(actions).tasks| && Run(actions).tasks[t] == Leaving(id, Some(g))
    requires Bumps(Run(actions).log, id) <= U64_MAX
    ensures DisconnectGoesOn(Run(actions), t, id, g)
  {
    InvHolds(actions, id);
    assert TaskFaithful(Run(actions).tasks[t], Run(actions).log, id);
  }

  lemma DisconnectEnds(w: World, t: nat, id: Id, g: Gen)
    requires DisconnectGoesOn(w, t, id, g) && w.tasks[t].Finished?
    requires CounterFaithful(w, id) && Bumps(w.log, id) <= U64_MAX
    ensures g < Bumps(w.log, id) && Lookup(w.s.attempts, id) == Some(Bumps(w.log, id))
  {
  }

  /** Whatever happens meanwhile, once a disconnect is over the counter has left the attempt it read behind. */
  lemma DisconnectVoids(actions: seq<Action>, more: seq<Action>, t: nat)
    requires t < |Run(actions).tasks| && Run(actions).tasks[t].Leaving? && Run(actions).tasks[t].guard.Some?
    requires Bumps(Run(actions + more).log, Run(actions).tasks[t].id) <= U64_MAX
    requires t < |Run(actions + more).tasks| && Run(actions + more).tasks[t].Finished?
    ensures var w', id, g := Run(actions + more), Run(actions).tasks[t].id, Run(actions).tasks[t].guard.value;
            g < Bumps(w'.log, id) && Lookup(w'.s.attempts, id) == Some(Bumps(w'.log, id))
  {
    var id, g := Run(actions).tasks[t].id, Run(actions).tasks[t].guard.value;
    BumpsOnlyGrow(actions, more, id);
    DisconnectStarts(actions, t, id, g);
    assert (actions + more)[..|actions|] == actions;
    DisconnectContinues(actions + more, |actions|, t, id, g);
    CounterHolds(actions + more, id);
    DisconnectEnds(Run(actions + more), t, id, g);
  }

  /** Without the session of `id`, its attempt `g` and that attempt's write channel. */
  function Undone(s: Tables, id: Id, g: Gen): Tables
    requires g < U64_MAX
  {
    Tables(s.attempts[id := g + 1], s.sessions - {id},
           if Lookup(s.channels, id) == Some(g) then s.channels - {id} else s.channels)
  }

  /** Left alone a disconnect removes session, attempt and write channel of the attempt it read, and nothing else. */
  lemma DisconnectAlone(actions: seq<Action>, t: nat, id: Id, g: Gen)
    requires t < |Run(actions).tasks| && Run(actions).tasks[t] == Leaving(id, Some(g))
    requires Lookup(Run(actions).s.attempts, id) == Some(g) && g < U64_MAX
    ensures var w, w' := Run(actions), Run(actions + [Advance(t, true)] + [Advance(t, true)] + [Advance(t, true)]);
            w'.s == Undone(w.s, id, g) && w'.tasks == w.tasks[t := Finished]
  {
    var a1 := actions + [Advance(t, true)];
    var a2 := a1 + [Advance(t, true)];
    RunSnoc(actions, Advance(t, true));
    RunSnoc(a1, Advance(t, true));
    RunSnoc(a2, Advance(t, true));
    LeavingSection(Run(actions), t, id, g);
    ClearedSection(Run(a1), t, id, g);
    InvalidatedSection(Run(a2), t, id, g + 1);
  }

  lemma LeavingSection(w: World, t: nat, id: Id, g: Gen)
    requires t < |w.tasks| && w.tasks[t] == Leaving(id, Some(g))
    ensures var w' := Step(w, Advance(t, true));
            w'.s == w.s.(sessions := w.s.sessions - {id}) && w'.tasks == w.tasks[t := Cleared(id, g)]
  {
  }

  lemma ClearedSection(w: World, t: nat, id: Id, g: Gen)
    requires t < |w.tasks| && w.tasks[t] == Cleared(id, g) && Lookup(w.s.attempts, id) == Some(g) && g < U64_MAX
    ensures var w' := Step(w, Advance(t, true));
            w'.s == w.s.(attempts := w.s.attempts[id := g + 1]) && w'.tasks == w.tasks[t := Invalidated(id, g + 1)]
  {
  }

  lemma InvalidatedSection(w: World, t: nat, id: Id, next: Gen)
    requires t < |w.tasks| && w.tasks[t] == Invalidated(id, next)
    ensures var w' := Step(w, Advance(t, true));
            w'.s == RemoveChannelFor(w.s, id, PrevGen(next)) && w'.tasks == w.tasks[t := Finished]
  {
  }

  /** So a disconnect that nothing comes between undoes the current attempt, whatever state it finds. */
  lemma DisconnectUndoes(actions: seq<Action>, id: Id)
    requires id in Run(actions).s.attempts && Run(actions).s.attempts[id] < U64_MAX
    ensures var w, t, g := Run(actions), |Run(actions).tasks|, Run(actions).s.attempts[id];
            var w' := Run(actions + [Disconnect(id)] + [Advance(t, true)] + [Advance(t, true)] + [Advance(t, true)]);
            w'.s == Undone(w.s, id, g)
  {
    var begun, t, g := actions + [Disconnect(id)], |Run(actions).tasks|, Run(actions).s.attempts[id];
    RunSnoc(actions, Disconnect(id));
    DisconnectBegins(Run(actions), id);
    DisconnectAlone(begun, t, id, g);
  }

  lemma DisconnectBegins(w: World, id: Id)
    ensures Step(w, Disconnect(id)) == w.(tasks := w.tasks + [Leaving(id, Lookup(w.s.attempts, id))])
  {
  }

  /** A drop that nothing comes between removes the session and voids the attempt, and leaves the write channel. */
  lemma DropUndoes(actions: seq<Action>, id: Id)
    ensures var w, t := Run(actions), |Run(actions).tasks|; var w' := Run(actions + [Drop(id)] + [Advance(t, true)]);
            && w'.s.sessions == w.s.sessions - {id} && w'.s.channels == w.s.channels
            && id in w'.s.attempts && w'.s.attempts == w.s.attempts[id := w'.s.attempts[id]]
            && (id in w.s.attempts ==> w'.s.attempts[id] != w.s.attempts[id])
            && w'.tasks == w.tasks + [Finished]
  {
    var t := |Run(actions).tasks|;
    RunSnoc(actions, Drop(id));
    RunSnoc(actions + [Drop(id)], Advance(t, true));
    DropSections(Run(actions), id);
    DroppingSection(Run(actions + [Drop(id)]), t, id);
  }

  lemma DropSections(w: World, id: Id)
    ensures var w' := Step(w, Drop(id));
            w'.s == w.s.(sessions := w.s.sessions - {id}) && w'.tasks == w.tasks + [Dropping(id)]
  {
  }

  lemma DroppingSection(w: World, t: nat, id: Id)
    requires t < |w.tasks| && w.tasks[t] == Dropping(id)
    ensures var w', g := Step(w, Advance(t, true)), BeginAttempt(w.s, id).1;
            && w'.s == w.s.(attempts := w.s.attempts[id := g]) && w'.tasks == w.tasks[t := Finished]
            && (id in w.s.attempts ==> g != w.s.attempts[id])
  {
  }

  lemma ConnectSections(w: World, t: nat, id: Id, g: Gen, interactive: bool)
    requires t < |w.tasks| && w.tasks[t] == Connecting(id, g, interactive) && Lookup(w.s.attempts, id) == Some(g)
    ensures var next := if interactive then Admitted(id, g) else Ready(id, g);
            Step(w, Advance(t, true)) == w.(tasks := w.tasks[t := next])
  {
  }

  lemma ShellSections(w: World, t: nat, id: Id, g: Gen)
    requires t < |w.tasks| && w.tasks[t] == Admitted(id, g)
    ensures var w' := Step(w, Advance(t, true));
            && w'.s == w.s.(channels := w.s.channels[id := g]) && w'.log == w.log
            && w'.tasks == w.tasks[t := Ready(id, g)] + [Shell(id, g)]
  {
  }

  lemma PublishSections(w: World, t: nat, id: Id, g: Gen)
    requires t < |w.tasks| && w.tasks[t] == Ready(id, g) && Lookup(w.s.attempts, id) == Some(g)
    ensures var w' := Step(w, Advance(t, true));
            w'.s == w.s.(sessions := w.s.sessions[id := g]) && w'.tasks == w.tasks[t := Finished]
  {
  }

  /** A connect with a shell that succeeds undisturbed publishes its session, and its shell has the write channel. */
  lemma ConnectSucceeds(actions: seq<Action>, id: Id)
    ensures var t := |Run(actions).tasks|;
            var begun := Run(actions + [Connect(id, true)]);
            var w := Run(actions + [Connect(id, true)] + [Advance(t, true)] + [Advance(t, true)] + [Advance(t, true)]);
            && id in begun.s.attempts
            && var g := begun.s.attempts[id];
               && w.s == Tables(begun.s.attempts, begun.s.sessions[id := g], begun.s.channels[id := g])
               && |w.tasks| == t + 2 && w.tasks[t] == Finished && w.tasks[t + 1] == Shell(id, g)
  {
    var t := |Run(actions).tasks|;
    var a1 := actions + [Connect(id, true)];
    var a2 := a1 + [Advance(t, true)];
    var a3 := a2 + [Advance(t, true)];
    RunSnoc(actions, Connect(id, true));
    RunSnoc(a1, Advance(t, true));
    RunSnoc(a2, Advance(t, true));
    RunSnoc(a3, Advance(t, true));
    var g := Run(a1).s.attempts[id];
    ConnectSections(Run(a1), t, id, g, true);
    ShellSections(Run(a2), t, id, g);
    PublishSections(Run(a3), t, id, g);
  }

  /** A drop that is not over yet, or has moved the counter since it stood at `n`. */
  ghost predicate DropGoesOn(w: World, t: nat, id: Id, n: nat) {
    t < |w.tasks| && n <= Bumps(w.log, id)
    && (w.tasks[t] == Dropping(id) || (w.tasks[t].Finished? && n < Bumps(w.log, id)))
  }

  lemma DropSection(w: World, a: Action, t: nat, id: Id, n: nat)
    requires DropGoesOn(w, t, id, n)
    ensures DropGoesOn(Step(w, a), t, id, n)
  {
    BumpsStep(w, a, id);
    if a.Advance? && a.task == t {
      OwnDropSection(w, t, a.ok, id, n);
    } else {
      OnlyItsOwn(w, a, t);
    }
  }

  lemma OwnDropSection(w: World, t: nat, ok: bool, id: Id, n: nat)
    requires DropGoesOn(w, t, id, n)
    ensures DropGoesOn(Step(w, Advance(t, ok)), t, id, n)
  {
    if w.tasks[t] == Dropping(id) {
      BumpsSnoc(w.log, Bumped(id, BeginAttempt(w.s, id).1, false), id);
    }
  }

  lemma {:induction false} DropContinues(all: seq<Action>, n: nat, t: nat, id: Id, bumps: nat)
    requires n <= |all| && DropGoesOn(Run(all[..n]), t, id, bumps)
    ensures DropGoesOn(Run(all), t, id, bumps)
    decreases |all|
  {
    if n == |all| {
      assert all[..n] == all;
    } else {
      var front, last := all[..|all| - 1], all[|all| - 1];
      assert front[..n] == all[..n];
      DropContinues(front, n, t, id, bumps);
      DropSection(Run(front), last, t, id, bumps);
    }
  }

  /** Once a drop is over the counter has moved. */
  lemma DropMoves(actions: seq<Action>, more: seq<Action>, t: nat)
    requires t < |Run(actions).tasks| && Run(actions).tasks[t].Dropping?
    requires t < |Run(actions + more).tasks| && Run(actions + more).tasks[t].Finished?
    ensures var id := Run(actions).tasks[t].id; Bumps(Run(actions).log, id) < Bumps(Run(actions + more).log, id)
  {
    var id := Run(actions).tasks[t].id;
    assert (actions + more)[..|actions|] == actions;
    DropContinues(actions + more, |actions|, t, id, Bumps(Run(actions).log, id));
  }
}
