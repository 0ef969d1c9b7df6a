/**
 * What holds in every state the server can reach, whatever the interleaving of the
 * accept thread and the workers (source/lawd/server.c).
 */
module ServerTheorems {
  import opened Modular
  import opened Pigeonhole
  import opened Sequences
  import opened Worker
  import opened StaleTimers
  import opened Server

  /**
   * Conservation: each task is in exactly one of the pool, the accept thread's hand, one
   * worker's queue, one worker's hand or one worker's table.
   */
  lemma TasksAreConserved(s: Sys, t: nat)
    requires Reachable(s) && t < |s.tasks|
    ensures exists p :: Lies(s, t, p) && forall q :: Lies(s, t, q) ==> q == p
  {
    hide Reachable;
    ReachableInv(s);
    hide Inv, Dated;
    assert Lies(s, t, s.loc[t]);
  }

  lemma OnReadyList(s: Sys, i: nat, t: nat)
    requires SysInv(s) && i < |s.locals| && t in s.locals[i].ready
    ensures t < |s.tasks| && s.loc[t] == InTable(i) && s.tasks[t].mark && t !in s.pool
  {
    hide Dated, Linked, Awakable, Modes, Lives, Unheard, Limits, Phases;
    assert t in At(s, i).ready;
    assert Resident(At(s, i), t);
    PlaceOf(s, t, InTable(i));
    assert !Lies(s, t, InPool);
  }

  lemma MarkedIsReady(s: Sys, t: nat)
    requires SysInv(s) && t < |s.tasks| && s.tasks[t].mark
    ensures s.loc[t].InTable? && s.loc[t].i < |s.locals| && t in s.locals[s.loc[t].i].ready
  {
    hide Dated, Linked, Awakable, Lives, Unheard, Limits, Phases;
    assert s.loc[t].InTable?;
    assert Lies(s, t, s.loc[t]);
    assert Resident(At(s, s.loc[t].i), t);
  }

  lemma ReadyIsLinked(s: Sys, i: nat)
    requires SysInv(s) && i < |s.locals|
    ensures Linked(s.tasks, s.locals[i].ready)
  {
    hide Dated, Linked, Awakable, Lives, Unheard, Limits, Phases, Places;
    assert Inv(At(s, i));
  }

  /**
   * One next field serves both kinds of list: the pool's list and every ready list are
   * chained by it, no task is in two of them, and a task is marked exactly when it is in
   * a ready list.
   */
  lemma ListsShareNext(s: Sys, t: nat)
    requires Reachable(s) && t < |s.tasks|
    ensures Linked(s.tasks, s.pool) && forall i: nat :: i < |s.locals| ==> Linked(s.tasks, s.locals[i].ready)
    ensures t in s.pool ==> forall i: nat :: i < |s.locals| ==> t !in s.locals[i].ready
    ensures forall i: nat, j: nat :: i < |s.locals| && j < |s.locals| ==>
              t in s.locals[i].ready && t in s.locals[j].ready ==> i == j
    ensures s.tasks[t].mark <==> exists i: nat :: i < |s.locals| && t in s.locals[i].ready
  {
    hide Reachable, Linked, Locals, Places, Modes, Lives, Unheard, Limits, Phases;
    ReachableInv(s);
    forall i: nat | i < |s.locals| ensures Linked(s.tasks, s.locals[i].ready) { ReadyIsLinked(s, i); }
    forall i: nat | i < |s.locals| && t in s.locals[i].ready
      ensures s.loc[t] == InTable(i) && s.tasks[t].mark && t !in s.pool
    {
      OnReadyList(s, i, t);
    }
    if s.tasks[t].mark { MarkedIsReady(s, t); }
  }

  /** After the accept thread saw the pool not empty, its pop finds a task. */
  lemma PopAfterCheckSucceeds(s: Sys)
    requires Reachable(s) && s.acc.Checked?
    ensures Enabled(s, PoolPop)
  {
    hide Reachable;
    ReachableInv(s);
  }

  /**
   * The ranges that Enabled asks for beyond the code's own tests hold in every reachable
   * state, so no step the code would take is left out because of them.
   */
  lemma StepsAreDefined(s: Sys, i: nat)
    requires Reachable(s)
    ensures s.acc.Checked? ==> Enabled(s, PoolPop)
    ensures forall v: nat :: s.acc.Popped? && v < VERSIONS ==> Enabled(s, SetUp(v))
    ensures s.acc.Armed? && i < |s.locals| ==> Enabled(s, Push(i))
    ensures Free(s, i) ==> forall e :: e in s.locals[i].timer ==> Enabled(s, Fire(i, e))
    ensures Free(s, i) ==> forall id: nat, ev :: Enabled(s, Deliver(i, id, ev))
    ensures Free(s, i) && s.locals[i].ready != [] ==>
              forall o :: o != Return(SUSPENDED_SIGNAL) ==> Enabled(s, RunTask(i, o))
    ensures i < |s.locals| && s.locals[i].hand.Some? ==> Holds(s, i)
  {
    hide Reachable, Dated, Awakable, Modes, Lives, Unheard, Limits;
    ReachableInv(s);
    if s.acc.Popped? || s.acc.Armed? { PlaceOf(s, s.acc.t, InServer) by { assert Lies(s, s.acc.t, InServer); } }
    if i < |s.locals| {
      assert Inv(At(s, i));
      if s.locals[i].ready != [] { assert s.locals[i].ready[0] in At(s, i).ready; }
    }
  }

  /**
   * Shutdown: once SHUTDOWN messages may be sent, no table, ready list, queue or hand
   * holds a task, so a worker that leaves its loop owns none.
   */
  lemma ShutdownOwnsNothing(s: Sys, i: nat)
    requires Reachable(s) && i < |s.locals| && i < |s.queues| && (s.acc.Stopped? || i in s.exited)
    ensures s.locals[i].table == map[] && s.locals[i].ready == [] && s.queues[i] == [] && s.locals[i].hand == None
  {
    hide Reachable, Inv, Dated, Places, Modes, Lives, Unheard, Limits, Resident;
    ReachableInv(s);
    StoppedOwnsNothing(s, i);
  }

  lemma StoppedOwnsNothing(s: Sys, i: nat)
    requires SysInv(s) && s.acc.Stopped? && i < |s.locals| && i < |s.queues|
    ensures s.locals[i].table == map[] && s.locals[i].ready == [] && s.queues[i] == [] && s.locals[i].hand == None
  {
    hide Inv, Dated, Places, Modes, Lives, Unheard, Limits, Resident;
    StoppedIsFull(s);
    if s.locals[i].table != map[] {
      var k :| k in s.locals[i].table;
      TableHolds(s, i, k);
    }
    if s.locals[i].ready != [] { OnReadyList(s, i, s.locals[i].ready[0]); }
    if s.queues[i] != [] { PlaceOf(s, s.queues[i][0], InQueue(i)); }
    if s.locals[i].hand.Some? { PlaceOf(s, s.locals[i].hand.value, InHand(i)); }
  }

  lemma TableHolds(s: Sys, i: nat, k: nat)
    requires SysInv(s) && i < |s.locals| && k in s.locals[i].table
    ensures s.locals[i].table[k] < |s.loc| && s.loc[s.locals[i].table[k]] == InTable(i)
  {
    hide Dated, ReadyOk, Awakable, Modes, Lives, Unheard, Limits, Phases;
    assert Indexed(At(s, i));
    PlaceOf(s, s.locals[i].table[k], InTable(i));
  }

  lemma SameKey(a: Task, b: Task)
    requires Numbered(a) && Numbered(b)
    ensures Key(a.id) == Key(b.id) <==> a.life % KEYS == b.life % KEYS
    ensures Key(a.id) == Key(b.id) && Near(a.life, b.life) ==> a.life == b.life
  {
    KeyOfLife(a.life);
    KeyOfLife(b.life);
    if Key(a.id) == Key(b.id) && Near(a.life, b.life) { ModUnique(a.life, b.life, KEYS); }
  }

  lemma KeyTaken(w: State, r: Task)
    requires Indexed(w) && AllNumbered(w) && Numbered(r)
    ensures Key(r.id) in w.table <==> exists u: nat :: Resident(w, u) && w.tasks[u].life % KEYS == r.life % KEYS
  {
    hide Key, Numbered;
    forall u: nat | Resident(w, u)
      ensures Key(w.tasks[u].id) == Key(r.id) <==> w.tasks[u].life % KEYS == r.life % KEYS
    {
      SameKey(w.tasks[u], r);
    }
    if Key(r.id) in w.table { assert Resident(w, w.table[Key(r.id)]); }
  }

  lemma ArrivalIsNumbered(s: Sys, i: nat)
    requires SysInv(s) && Holding(s, i) && s.tasks[s.locals[i].hand.value].mode.Spawned?
    ensures Indexed(At(s, i)) && AllNumbered(At(s, i)) && Live(s, s.locals[i].hand.value)
    ensures Numbered(s.tasks[s.locals[i].hand.value]) && s.tasks[s.locals[i].hand.value].life <= s.spawned
    ensures forall u: nat :: Resident(At(s, i), u) ==>
              Live(s, u) && s.tasks[u].life <= s.spawned && s.tasks[u].life != s.tasks[s.locals[i].hand.value].life
  {
    hide ReadyOk, Awakable, Linked, Modes, Unheard, Limits, Phases, AllUnique, AllLag, Resident, Numbered;
    var t := s.locals[i].hand.value;
    assert Inv(At(s, i)) && Dated(At(s, i));
    PlaceOf(s, t, InHand(i));
    forall u: nat | Resident(At(s, i), u) ensures Live(s, u) && u != t { PlaceOf(s, u, InTable(i)); }
  }

  /**
   * The worker's insert-success check fails exactly when some resident task's life is
   * congruent to the new one modulo 2^32.
   */
  lemma InsertFailsExactlyOnCongruentLives(s: Sys, i: nat)
    requires Reachable(s) && Holding(s, i) && s.tasks[s.locals[i].hand.value].mode.Spawned?
    ensures CanInsert(At(s, i)) <==>
              !exists u: nat :: Resident(At(s, i), u) &&
                s.tasks[u].life % KEYS == s.tasks[s.locals[i].hand.value].life % KEYS
  {
    hide Reachable, SysInv, Indexed, AllNumbered, Resident, Key, Numbered, Live;
    ReachableInv(s);
    ArrivalIsNumbered(s, i);
    KeyTaken(At(s, i), s.tasks[s.locals[i].hand.value]);
  }

  /** While the task and the residents of the worker are of lives within 2^32 spawns, the insert succeeds. */
  lemma InsertSucceedsInWindow(s: Sys, i: nat)
    requires Reachable(s) && Holding(s, i) && s.tasks[s.locals[i].hand.value].mode.Spawned?
    requires forall u: nat :: Resident(At(s, i), u) ==> Near(s.tasks[u].life, s.tasks[s.locals[i].hand.value].life)
    ensures CanInsert(At(s, i))
  {
    hide Reachable, SysInv, Resident, Key, Numbered, Live;
    ReachableInv(s);
    ArrivalIsNumbered(s, i);
    var w, r := At(s, i), s.tasks[s.locals[i].hand.value];
    if Key(r.id) in w.table {
      var u := w.table[Key(r.id)];
      assert Resident(w, u) && Key(w.tasks[u].id) == Key(r.id) by { TableEntry(w, Key(r.id)); }
      SameKey(w.tasks[u], r);
    }
  }

  lemma TableEntry(w: State, k: nat)
    requires Indexed(w) && k in w.table
    ensures Resident(w, w.table[k]) && Key(w.tasks[w.table[k]].id) == k
  {
  }

  /** The worker's removal of a finished task from its table finds that task. */
  lemma RemoveFindsTheTask(s: Sys, i: nat)
    requires Reachable(s) && i < |s.locals| && s.locals[i].ready != []
    ensures s.locals[i].ready[0] < |s.tasks|
    ensures Lookup(At(s, i), s.tasks[s.locals[i].ready[0]].id) == Some(s.locals[i].ready[0])
  {
    hide Reachable;
    ReachableInv(s);
    assert s.locals[i].ready[0] in At(s, i).ready;
    assert Resident(At(s, i), s.locals[i].ready[0]);
  }

  /** Whenever a worker has nothing ready, each task in its table is suspended with a live timer entry. */
  lemma IdleWorkersAreArmed(s: Sys, i: nat, t: nat)
    requires Reachable(s) && i < |s.locals| && s.locals[i].ready == [] && Resident(At(s, i), t)
    ensures s.tasks[t].mode.Suspended? && !s.tasks[t].mark && EntryOf(s.tasks[t]) in s.locals[i].timer
  {
    hide Reachable;
    ReachableInv(s);
    assert Awakable(At(s, i), s.tasks[t]);
  }

  /**
   * In every reachable state a timer entry that fires at worker i reaches a task only if it
   * is the entry of that task's current wait, unless 2^32 spawns lie between their lives or
   * 2^32 dispatches of the task between its waits.
   */
  lemma TimersAreInert(s: Sys, i: nat, e: Entry, t: nat)
    requires Reachable(s) && i < |s.locals| && e in s.locals[i].timer && Indexed(At(s, i))
    requires Lookup(At(s, i), e.id) == Some(t) && Fires(At(s, i), e) && Recent(s.tasks[t], e)
    ensures e == EntryOf(s.tasks[t])
  {
    hide Reachable;
    ReachableInv(s);
    TimerReachesOnlyItsWait(At(s, i), e, t);
  }

  /**
   * Admission: the written test lets a table grow to one more than worker_tasks, as far as
   * there are tasks.
   */
  lemma ResidentsAreBounded(s: Sys, i: nat)
    requires Reachable(s) && i < |s.locals|
    ensures |s.locals[i].table| <= s.limit + 1 && |s.locals[i].table| <= |s.tasks|
  {
    hide Reachable;
    ReachableInv(s);
    TableFits(s, i);
  }

  lemma TableFits(s: Sys, i: nat)
    requires SysInv(s) && i < |s.locals|
    ensures |s.locals[i].table| <= |s.tasks|
  {
    hide ReadyOk, Awakable, Dated, Places, Modes, Lives, Unheard, Limits, Phases;
    assert Indexed(At(s, i));
    BelowIs(|s.tasks|);
    InjectiveSize(s.locals[i].table, Below(|s.tasks|));
  }

  lemma StepKeepsSizes(s: Sys, a: Step)
    requires SysInv(s) && Enabled(s, a)
    ensures |Apply(s, a).tasks| == |s.tasks| && |Apply(s, a).locals| == |s.locals| && Apply(s, a).limit == s.limit
  {
    hide LinkAt, ReadyOk, Awakable, Dated, Places, Modes, Lives, Unheard, Limits;
  }

  lemma {:induction false} RunKeepsSizes(s: Sys, steps: seq<Step>, s': Sys)
    requires SysInv(s) && Runs(s, steps, s')
    ensures |s'.tasks| == |s.tasks| && |s'.locals| == |s.locals| && s'.limit == s.limit
    decreases |steps|
  {
    hide SysInv, Enabled, Apply;
    if steps != [] {
      var m :| Runs(s, Front(steps), m) && Next(m, Last(steps), s');
      RunKeepsSizes(s, Front(steps), m);
      RunKeepsInv(s, Front(steps), m);
      StepKeepsSizes(m, Last(steps));
    }
  }

  /** The only worker of a server never holds more than worker_tasks tasks, in spite of the test. */
  lemma OneWorkerStaysInLimit(s0: Sys, steps: seq<Step>, s: Sys)
    requires Init(s0, 1) && Runs(s0, steps, s)
    ensures |s.locals| == 1 && |s.locals[0].table| <= s.limit
  {
    hide SysInv, Runs;
    InitInv(s0, 1);
    RunKeepsSizes(s0, steps, s);
    RunKeepsInv(s0, steps, s);
    TableFits(s, 0);
  }
}
