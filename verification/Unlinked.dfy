/**
 * What a dispatched task looks like: it is off every list, its link is the null pointer,
 * and until it waits again it has room for no event (source/lawd/server.c).
 */
module Unlinked {
  import opened Sequences
  import opened Worker
  import opened StaleTimers
  import opened Server
  import opened ServerTheorems

  /** A task on no list has no link, and only one suspended in a table has room for events. */
  predicate Loose(r: Task, p: Place) {
    && (r.mark || p.InPool? || r.next == NIL)
    && ((p.InTable? && r.mode.Suspended?) || (r.max == 0 && r.events == []))
  }

  ghost predicate TasksLoose(tasks: seq<Task>, loc: seq<Place>) {
    forall t: nat :: t < |tasks| && t < |loc| ==> Loose(tasks[t], loc[t])
  }

  ghost predicate AllLoose(s: Sys) { TasksLoose(s.tasks, s.loc) }

  lemma StepKeepsLoose(s: Sys, a: Step)
    requires SysInv(s) && Enabled(s, a) && AllLoose(s)
    ensures AllLoose(Apply(s, a))
  {
    hide SysInv, Apply, AllLoose;
    if a.Fire? || a.Deliver? {
      DeliveryKeepsLoose(s, a);
    } else if a.RunTask? || a.InsertTask? || a.GiveBack? {
      WorkKeepsLoose(s, a);
    } else {
      RestKeepsLoose(s, a);
    }
  }

  lemma NotifyIsLoose(w: State, t: nat, ev: Event, loc: seq<Place>)
    requires t < |w.tasks| && TasksLoose(w.tasks, loc)
    ensures TasksLoose(Notify(w, t, ev).tasks, loc)
  {
    var r := Notify(w, t, ev).tasks[t];
    assert Notify(w, t, ev).tasks == w.tasks[t := r];
    assert t < |loc| ==> Loose(r, loc[t]);
  }

  lemma DeliveryKeepsLoose(s: Sys, a: Step)
    requires SysInv(s) && Enabled(s, a) && AllLoose(s) && (a.Fire? || a.Deliver?)
    ensures AllLoose(Apply(s, a))
  {
    hide Inv, Dated, Linked, Places, Modes, Lives, Unheard, Limits, Phases, Notify, TasksLoose;
    var w := At(s, a.i);
    if a.Fire? && Fires(w, a.e) {
      NotifyIsLoose(w.(timer := w.timer - multiset{a.e}), Lookup(w, a.e.id).value, Timeout, s.loc);
    } else if a.Deliver? && Lookup(w, a.id).Some? {
      NotifyIsLoose(w, Lookup(w, a.id).value, a.ev, s.loc);
    }
  }

  lemma WorkKeepsLoose(s: Sys, a: Step)
    requires SysInv(s) && Enabled(s, a) && AllLoose(s) && (a.RunTask? || a.InsertTask? || a.GiveBack?)
    ensures AllLoose(Apply(s, a))
  {
    hide Inv, Dated, Linked, Places, Modes, Lives, Unheard, Limits, Phases;
    if a.RunTask? {
      OnReadyList(s, a.i, s.locals[a.i].ready[0]);
    } else {
      PlaceOf(s, s.locals[a.i].hand.value, InHand(a.i));
    }
  }

  lemma RestKeepsLoose(s: Sys, a: Step)
    requires SysInv(s) && Enabled(s, a) && AllLoose(s)
    requires !a.Fire? && !a.Deliver? && !a.RunTask? && !a.InsertTask? && !a.GiveBack?
    ensures AllLoose(Apply(s, a))
  {
    hide Inv, Dated, Linked, Lives, Unheard, Limits, Phases;
    if a.SetUp? || a.Push? { PlaceOf(s, s.acc.t, InServer); }
    if a.PoolPop? { PlaceOf(s, s.pool[0], InPool); }
    if a.Take? { PlaceOf(s, s.queues[a.i][0], InQueue(a.i)); }
  }

  lemma {:induction false} RunKeepsLoose(s: Sys, steps: seq<Step>, s': Sys)
    requires SysInv(s) && AllLoose(s) && Runs(s, steps, s')
    ensures AllLoose(s')
    decreases |steps|
  {
    hide SysInv, Enabled, Apply, AllLoose;
    if steps != [] {
      var m :| Runs(s, Front(steps), m) && Next(m, Last(steps), s');
      RunKeepsLoose(s, Front(steps), m);
      RunKeepsInv(s, Front(steps), m);
      StepKeepsLoose(m, Last(steps));
    }
  }

  /** In every reachable state a task that is neither in the pool nor on a ready list has no link. */
  lemma TasksOffListsAreUnlinked(s: Sys, t: nat)
    requires Reachable(s) && t < |s.tasks|
    requires t !in s.pool && forall i: nat :: i < |s.locals| ==> t !in s.locals[i].ready
    ensures s.tasks[t].next == NIL && !s.tasks[t].mark
  {
    hide SysInv, Runs;
    ReachableIsLoose(s);
    ListsShareNext(s, t);
    ReachableInv(s);
    PooledIsListed(s, t);
  }

  lemma PooledIsListed(s: Sys, t: nat)
    requires SysInv(s) && t < |s.tasks|
    ensures t < |s.loc| && (s.loc[t].InPool? <==> t in s.pool)
  {
    hide Inv, Dated, Linked, Modes, Lives, Unheard, Limits, Phases;
    assert Lies(s, t, InPool) <==> t in s.pool;
  }

  /** In every reachable state a task that is not suspended has room for no event and holds none. */
  lemma OnlyWaitsTakeEvents(s: Sys, t: nat)
    requires Reachable(s) && t < |s.tasks| && !s.tasks[t].mode.Suspended?
    ensures s.tasks[t].max == 0 && s.tasks[t].events == []
  {
    hide SysInv, Runs;
    ReachableIsLoose(s);
    ReachableInv(s);
    PooledIsListed(s, t);
  }

  lemma ReachableIsLoose(s: Sys)
    requires Reachable(s)
    ensures AllLoose(s)
  {
    hide SysInv, Runs;
    var s0, workers, steps :| Init(s0, workers) && Runs(s0, steps, s);
    InitInv(s0, workers);
    RunKeepsLoose(s0, steps, s);
  }

  /**
   * law_task_setup: the popped task, off every list, gets the next id and the given version,
   * no event and no room for any; no other task changes.
   */
  lemma SetUpTask(s: Sys, version: nat)
    requires Reachable(s) && Enabled(s, SetUp(version))
    ensures Shape(s)
    ensures var t, s' := s.acc.t, Apply(s, SetUp(version));
            && s'.acc == Armed(t) && s'.spawned == s.spawned + 1 && |s'.tasks| == |s.tasks|
            && (forall u: nat :: u < |s.tasks| && u != t ==> s'.tasks[u] == s.tasks[u])
            && var r := s'.tasks[t];
               && r.mode.Spawned? && r.id == s'.spawned % 0x100_0000_0000_0000 && r.version == version
               && r.next == NIL && !r.mark && r.max == 0 && r.events == []
  {
    ReachableIsLoose(s);
    ReachableInv(s);
    hide Reachable, Inv, Dated, Linked, Lives, Unheard, Limits, Phases;
    PlaceOf(s, s.acc.t, InServer);
  }

  /**
   * What a worker asserts of the task it has popped, and what running it does: every round of
   * the dispatch loop unlinks and unmarks the head of the ready list, counts its version on,
   * and leaves it waiting with a timer entry or in the worker's hand.
   */
  lemma DispatchedTask(s: Sys, i: nat, o: Outcome)
    requires SysInv(s) && Enabled(s, RunTask(i, o))
    ensures var t, s' := s.locals[i].ready[0], Apply(s, RunTask(i, o));
            && |s'.tasks| == |s.tasks| && |s'.locals| == |s.locals|
            && s'.tasks[t].next == NIL && !s'.tasks[t].mark && s'.tasks[t].events == []
            && s'.tasks[t].version == (s.tasks[t].version + 1) % VERSIONS
            && t !in s'.locals[i].ready && s'.locals[i].ready == s.locals[i].ready[1..]
            && (o.Wait? ==>
                  && s'.tasks[t].mode.Suspended? && s'.tasks[t].max == o.max
                  && Entry(o.expiry, s.tasks[t].id, s'.tasks[t].version, s.tasks[t].life, s.tasks[t].runs + 1)
                     in s'.locals[i].timer)
            && (o.Return? ==>
                  && s'.tasks[t].max == 0 && s'.locals[i].hand == Some(t)
                  && Key(s.tasks[t].id) !in s'.locals[i].table)
  {
    hide Linked, Awakable, Dated, Places, Modes, Lives, Unheard, Limits, Phases;
    assert Inv(At(s, i));
  }
}
