/**
 * How many tasks a worker comes to hold: the admission test of law_worker_tick as written
 * lets every server with two workers or more overfill a table, even if no queue is ever
 * full, and only a single worker is kept within worker_tasks (source/lawd/server.c).
 */
module Admission {
  import opened Modular
  import opened Sequences
  import opened Worker
  import opened StaleTimers
  import opened Server
  import opened ServerTheorems
  import Spawn

  // Runs in which every queue has room -------------------------------------------------------

  /**
   * A task goes to the first queue that law_spawn_dispatch_once tries, and that and every
   * other queue is empty at that time, so that it has room whatever its capacity is.
   */
  predicate FirstTry(s: Sys, a: Step) {
    a.Push? ==>
      && (forall i :: 0 <= i < |s.queues| ==> s.queues[i] == [])
      && (s.acc.Armed? && s.acc.t < |s.tasks| && s.locals != [] ==>
            a.i == Spawn.Probe(0, s.tasks[s.acc.t].id, |s.locals|))
  }

  ghost predicate EasyRun(s: Sys, steps: seq<Step>, s': Sys)
    decreases |steps|
  {
    if steps == [] then s' == s
    else exists m :: EasyRun(s, Front(steps), m) && Next(m, Last(steps), s') && FirstTry(m, Last(steps))
  }

  lemma {:induction false} EasyRunsAreRuns(s: Sys, steps: seq<Step>, s': Sys)
    requires EasyRun(s, steps, s')
    ensures Runs(s, steps, s')
    decreases |steps|
  {
    hide Next, FirstTry;
    if steps != [] {
      var m :| EasyRun(s, Front(steps), m) && Next(m, Last(steps), s') && FirstTry(m, Last(steps));
      EasyRunsAreRuns(s, Front(steps), m);
    }
  }

  /** s is reached from a created server by a run in which every queue has room. */
  ghost predicate Easily(s0: Sys, s: Sys) { SysInv(s) && Started(s) && exists steps :: EasyRun(s0, steps, s) }

  /** A task that is not in the pool has been given an id. */
  ghost predicate Started(s: Sys) { forall t: nat :: Live(s, t) && t < |s.tasks| ==> s.tasks[t].life > 0 }

  lemma StepKeepsStarted(s: Sys, a: Step)
    requires SysInv(s) && Enabled(s, a) && Started(s)
    ensures Started(Apply(s, a))
  {
    hide SysInv, Apply, Started;
    if a.SetUp? || a.PoolPop? || a.Push? {
      SpawnKeepsStarted(s, a);
    } else if a.Take? || a.InsertTask? {
      AdmitKeepsStarted(s, a);
    } else if a.RunTask? || a.GiveBack? {
      RunKeepsStarted(s, a);
    } else {
      RestKeepsStarted(s, a);
    }
  }

  /** The tasks that are live after the step were live before it, and their lives are the same. */
  lemma StartedFrame(s: Sys, s': Sys)
    requires Started(s) && |s'.tasks| == |s.tasks|
    requires forall t: nat :: Live(s', t) && t < |s.tasks| ==> Live(s, t) && s'.tasks[t].life == s.tasks[t].life
    ensures Started(s')
  {
  }

  lemma SpawnKeepsStarted(s: Sys, a: Step)
    requires SysInv(s) && Enabled(s, a) && Started(s) && (a.SetUp? || a.PoolPop? || a.Push?)
    ensures Started(Apply(s, a))
  {
    hide Inv, Dated, Linked, Modes, Lives, Unheard, Limits;
    if !a.PoolPop? { PlaceOf(s, s.acc.t, InServer); }
    if !a.SetUp? { StartedFrame(s, Apply(s, a)); }
  }

  lemma AdmitKeepsStarted(s: Sys, a: Step)
    requires SysInv(s) && Enabled(s, a) && Started(s) && (a.Take? || a.InsertTask?)
    ensures Started(Apply(s, a))
  {
    hide Inv, Dated, Linked, Modes, Lives, Unheard, Limits;
    if a.Take? {
      PlaceOf(s, s.queues[a.i][0], InQueue(a.i));
    } else {
      PlaceOf(s, s.locals[a.i].hand.value, InHand(a.i));
    }
    StartedFrame(s, Apply(s, a));
  }

  lemma RunKeepsStarted(s: Sys, a: Step)
    requires SysInv(s) && Enabled(s, a) && Started(s) && (a.RunTask? || a.GiveBack?)
    ensures Started(Apply(s, a))
  {
    hide SysInv, Apply, Started;
    if a.RunTask? { ReturnKeepsStarted(s, a.i, a.o); } else { GiveKeepsStarted(s, a.i); }
  }

  lemma ReturnKeepsStarted(s: Sys, i: nat, o: Outcome)
    requires SysInv(s) && Enabled(s, RunTask(i, o)) && Started(s)
    ensures Started(Apply(s, RunTask(i, o)))
  {
    hide Inv, Dated, Linked, Places, Modes, Lives, Unheard, Limits, Started;
    ReadyPlaced(s, i);
    StartedFrame(s, Apply(s, RunTask(i, o)));
  }

  lemma GiveKeepsStarted(s: Sys, i: nat)
    requires SysInv(s) && Enabled(s, GiveBack(i)) && Started(s)
    ensures Started(Apply(s, GiveBack(i)))
  {
    hide Inv, Dated, Linked, Places, Modes, Lives, Unheard, Limits, Started;
    StartedFrame(s, Apply(s, GiveBack(i)));
  }

  lemma ReadyPlaced(s: Sys, i: nat)
    requires SysInv(s) && i < |s.locals|
    ensures s.locals[i].ready != [] ==> s.locals[i].ready[0] < |s.loc| && s.loc[s.locals[i].ready[0]] == InTable(i)
  {
    hide Dated, Linked, Awakable, Modes, Lives, Unheard, Limits, Phases;
    if s.locals[i].ready != [] {
      assert s.locals[i].ready[0] in At(s, i).ready;
      PlaceOf(s, s.locals[i].ready[0], InTable(i));
    }
  }

  lemma RestKeepsStarted(s: Sys, a: Step)
    requires SysInv(s) && Enabled(s, a) && Started(s)
    requires !a.SetUp? && !a.PoolPop? && !a.Push? && !a.Take? && !a.InsertTask? && !a.RunTask? && !a.GiveBack?
    ensures Started(Apply(s, a))
  {
    hide SysInv, Apply, Started;
    if a.Fire? || a.Deliver? {
      DeliveryKeepsStarted(s, a);
    } else {
      AcceptKeepsStarted(s, a);
    }
  }

  lemma AcceptKeepsStarted(s: Sys, a: Step)
    requires SysInv(s) && Enabled(s, a) && Started(s)
    requires a.Check? || a.Refuse? || a.Stop? || a.Full? || a.Post? || a.Exit?
    ensures Started(Apply(s, a))
  {
    hide Inv, Dated, Linked, Places, Modes, Lives, Unheard, Limits, Started;
    StartedFrame(s, Apply(s, a));
  }

  lemma DeliveryKeepsStarted(s: Sys, a: Step)
    requires SysInv(s) && Enabled(s, a) && Started(s) && (a.Fire? || a.Deliver?)
    ensures Started(Apply(s, a))
  {
    hide Inv, Dated, Linked, Places, Modes, Lives, Unheard, Limits, Started;
    StartedFrame(s, Apply(s, a));
  }

  lemma Begin(s0: Sys, workers: nat)
    requires Init(s0, workers)
    ensures Easily(s0, s0)
  {
    InitInv(s0, workers);
    assert EasyRun(s0, [], s0);
  }

  lemma OneMore(s0: Sys, m: Sys, a: Step)
    requires Easily(s0, m) && Enabled(m, a) && FirstTry(m, a)
    ensures Easily(s0, Apply(m, a))
  {
    hide Inv, Dated, Linked, Places, Modes, Lives, Unheard, Limits, Phases, Lies, FirstTry, Started;
    var steps :| EasyRun(s0, steps, m);
    StepKeepsInv(m, a);
    StepKeepsStarted(m, a);
    assert Next(m, a, Apply(m, a));
    FrontLast(steps, a);
    assert EasyRun(s0, steps + [a], Apply(m, a));
  }

  lemma EasyIsReachable(s0: Sys, workers: nat, s: Sys)
    requires Init(s0, workers) && Easily(s0, s)
    ensures Reachable(s)
  {
    hide Init, SysInv, Started, EasyRun, Runs;
    var steps :| EasyRun(s0, steps, s);
    EasyRunsAreRuns(s0, steps, s);
  }

  // Filling table 0 -----------------------------------------------------------------------------

  predicate Bare(l: Local) { l.table == map[] && l.ready == [] && l.hand.None? }

  ghost predicate SameServer(s0: Sys, m: Sys) {
    |m.tasks| == |s0.tasks| && |m.locals| == |s0.locals| && m.limit == s0.limit && m.exited == {}
  }

  /** After j spawns: worker 0 holds c of the tasks, which wait; all others are in the pool and no one is busy. */
  ghost predicate Filling(s0: Sys, m: Sys, j: nat, c: nat) {
    && Easily(s0, m) && SameServer(s0, m) && m.acc.Listening? && m.spawned == j
    && |m.pool| + c == |m.tasks| && m.locals != [] && |m.queues| == |m.locals| && |m.locals[0].table| == c
    && m.locals[0].ready == [] && m.locals[0].hand.None?
    && (forall i: nat :: 0 < i < |m.locals| ==> Bare(m.locals[i]))
    && (forall i: nat :: i < |m.queues| ==> m.queues[i] == [])
  }

  /** One task more, given the next id, is at the end of the first queue tried. */
  ghost predicate Spawned(m: Sys, p: Sys, i: nat, t: nat) {
    && p.acc.Listening? && p.spawned == m.spawned + 1 && |p.pool| + 1 == |m.pool| && p.locals == m.locals
    && i < |m.queues| && p.queues == m.queues[i := m.queues[i] + [t]]
    && t < |p.tasks| && p.tasks[t].mode.Spawned?
  }

  lemma Hand(s0: Sys, m: Sys) returns (h: Sys)
    requires Easily(s0, m) && SameServer(s0, m) && m.acc.Listening? && m.pool != []
    ensures Easily(s0, h) && SameServer(s0, h) && h.acc.Popped? && h.acc.t < |h.tasks| && h.spawned == m.spawned
    ensures h.pool == m.pool[1..] && h.locals == m.locals && h.queues == m.queues
  {
    hide Inv, Dated, Places, Modes, Lives, Unheard, Limits, Phases, Lies, LinkAt, Started, EasyRun;
    OneMore(s0, m, Check);
    var a := Apply(m, Check);
    assert Enabled(a, PoolPop);
    OneMore(s0, a, PoolPop);
    h := Apply(a, PoolPop);
  }

  lemma SpawnOne(s0: Sys, m: Sys) returns (p: Sys, i: nat, t: nat)
    requires Easily(s0, m) && SameServer(s0, m) && m.acc.Listening? && m.pool != [] && m.locals != []
    requires forall i: nat :: i < |m.queues| ==> m.queues[i] == []
    ensures Easily(s0, p) && SameServer(s0, p) && Spawned(m, p, i, t)
    ensures i == Spawn.Probe(0, (m.spawned + 1) % IDS, |m.locals|)
  {
    hide Inv, Dated, Places, Modes, Lives, Unheard, Limits, Phases, Lies, Linked, Started, EasyRun, Spawn.Probe;
    var h := Hand(s0, m);
    t := h.acc.t;
    OneMore(s0, h, SetUp(0));
    var b := Apply(h, SetUp(0));
    i := Spawn.Probe(0, (m.spawned + 1) % IDS, |m.locals|);
    ProbeInRange((m.spawned + 1) % IDS, |m.locals|);
    OneMore(s0, b, Push(i));
    p := Apply(b, Push(i));
  }

  lemma ProbeInRange(id: nat, n: nat)
    requires n > 0
    ensures Spawn.Probe(0, id, n) < n
  {
  }

  /** Worker i takes the first task of its queue into its hand. */
  lemma TakeOne(s0: Sys, m: Sys, i: nat) returns (h: Sys)
    requires Easily(s0, m) && SameServer(s0, m) && i < |m.locals| && i < |m.queues| && m.queues[i] != []
    requires m.locals[i].hand.None? && |m.locals[i].table| <= m.limit
    ensures Easily(s0, h) && SameServer(s0, h) && h.tasks == m.tasks && h.pool == m.pool
    ensures h.acc == m.acc && h.spawned == m.spawned && h.queues == m.queues[i := m.queues[i][1..]]
    ensures h.locals == m.locals[i := m.locals[i].(hand := Some(m.queues[i][0]))]
    ensures m.queues[i][0] < |m.tasks| && m.tasks[m.queues[i][0]].mode.Spawned?
  {
    hide Inv, Dated, Lives, Unheard, Limits, Phases, Linked, Started, EasyRun;
    PlaceOf(m, m.queues[i][0], InQueue(i)) by { assert Lies(m, m.queues[i][0], InQueue(i)); }
    assert Live(m, m.queues[i][0]);
    hide Places, Modes, Lies;
    OneMore(s0, m, Take(i));
    h := Apply(m, Take(i));
  }

  /** The task in worker i's hand goes into its table and onto its ready list. */
  lemma InsertOne(s0: Sys, h: Sys, i: nat) returns (p: Sys)
    requires Easily(s0, h) && SameServer(s0, h) && i < |h.locals| && CanInsert(At(h, i))
    ensures var t, l := h.locals[i].hand.value, h.locals[i];
            && Easily(s0, p) && SameServer(s0, p) && p.pool == h.pool && p.acc == h.acc && p.spawned == h.spawned
            && p.queues == h.queues
            && (forall u: nat :: u < |h.tasks| ==> p.tasks[u].mode == h.tasks[u].mode && p.tasks[u].id == h.tasks[u].id)
            && p.locals == h.locals[i := Local(l.table[Key(h.tasks[t].id) := t], p.locals[i].ready, l.timer, None)]
            && p.locals[i].ready == if h.tasks[t].mark then l.ready else [t] + l.ready
  {
    hide Inv, Dated, Places, Modes, Lives, Unheard, Limits, Phases, Lies, Linked, Started, EasyRun;
    OneMore(s0, h, InsertTask(i));
    p := Apply(h, InsertTask(i));
  }

  /** The only task of worker i runs, returns and is given back. */
  lemma FinishOne(s0: Sys, p: Sys, i: nat, t: nat) returns (q: Sys)
    requires Easily(s0, p) && SameServer(s0, p) && i < |p.locals| && t < |p.tasks|
    requires p.locals[i].table == map[Key(p.tasks[t].id) := t] && p.locals[i].ready == [t] && p.locals[i].hand.None?
    ensures Easily(s0, q) && SameServer(s0, q) && q.acc == p.acc && q.spawned == p.spawned && q.queues == p.queues
    ensures |q.pool| == |p.pool| + 1 && |q.locals| == |p.locals| && Bare(q.locals[i])
    ensures forall k: nat :: k < |p.locals| && k != i ==> q.locals[k] == p.locals[k]
  {
    hide Inv, Dated, Places, Modes, Lives, Unheard, Limits, Phases, Lies, Linked, Started, EasyRun;
    OneMore(s0, p, RunTask(i, Return(0)));
    var d := Apply(p, RunTask(i, Return(0)));
    OneMore(s0, d, GiveBack(i));
    q := Apply(d, GiveBack(i));
    assert map[Key(p.tasks[t].id) := t] - {Key(p.tasks[t].id)} == map[];
  }

  lemma ServeOne(s0: Sys, m: Sys, i: nat) returns (q: Sys)
    requires Easily(s0, m) && SameServer(s0, m) && i < |m.locals| && i < |m.queues| && |m.queues[i]| == 1
    requires Bare(m.locals[i])
    ensures Easily(s0, q) && SameServer(s0, q) && q.acc == m.acc && q.spawned == m.spawned
    ensures q.queues == m.queues[i := []] && |q.pool| == |m.pool| + 1 && |q.locals| == |m.locals| && Bare(q.locals[i])
    ensures forall k: nat :: k < |m.locals| && k != i ==> q.locals[k] == m.locals[k]
  {
    hide Easily;
    var t := m.queues[i][0];
    var h := TakeOne(s0, m, i);
    Unmarked(s0, h, i);
    var p := InsertOne(s0, h, i);
    q := FinishOne(s0, p, i, t);
    assert m.queues[i][1..] == [];
  }

  lemma Unmarked(s0: Sys, h: Sys, i: nat)
    requires Easily(s0, h) && i < |h.locals| && h.locals[i].hand.Some?
    ensures h.locals[i].hand.value < |h.tasks| && !h.tasks[h.locals[i].hand.value].mark
  {
    hide Dated, Places, Modes, Lives, Unheard, Limits, Phases, Linked, Started, EasyRun;
    assert Inv(At(h, i));
  }

  /** Worker 0 takes the task, runs it, and it waits. */
  lemma HostOne(s0: Sys, workers: nat, m: Sys) returns (q: Sys)
    requires Init(s0, workers) && Easily(s0, m) && SameServer(s0, m) && m.spawned <= KEYS && m.locals != []
    requires m.queues != [] && |m.queues[0]| == 1 && m.locals[0].ready == [] && m.locals[0].hand.None?
    requires |m.locals[0].table| < m.limit
    ensures Easily(s0, q) && SameServer(s0, q) && q.acc == m.acc && q.spawned == m.spawned && q.pool == m.pool
    ensures q.queues == m.queues[0 := []] && |q.locals| == |m.locals|
    ensures |q.locals[0].table| == |m.locals[0].table| + 1 && q.locals[0].ready == [] && q.locals[0].hand.None?
    ensures forall k: nat :: 0 < k < |m.locals| ==> q.locals[k] == m.locals[k]
  {
    hide Easily, Init, CanInsert;
    var p := AdmitNext(s0, workers, m);
    q := WaitOne(s0, p);
  }

  /** Worker 0 takes the only task of its queue into its table, where it is alone ready. */
  lemma AdmitNext(s0: Sys, workers: nat, m: Sys) returns (p: Sys)
    requires Init(s0, workers) && Easily(s0, m) && SameServer(s0, m) && m.spawned <= KEYS && m.locals != []
    requires m.queues != [] && |m.queues[0]| == 1 && m.locals[0].ready == [] && m.locals[0].hand.None?
    requires |m.locals[0].table| <= m.limit
    ensures Easily(s0, p) && SameServer(s0, p) && p.acc == m.acc && p.spawned == m.spawned && p.pool == m.pool
    ensures p.queues == m.queues[0 := []] && |p.locals| == |m.locals|
    ensures |p.locals[0].table| == |m.locals[0].table| + 1 && p.locals[0].hand.None?
    ensures |p.locals[0].ready| == 1 && p.locals[0].ready[0] < |p.tasks| && p.tasks[p.locals[0].ready[0]].mode.Spawned?
    ensures forall k: nat :: 0 < k < |m.locals| ==> p.locals[k] == m.locals[k]
  {
    hide Easily, Init, CanInsert;
    var t := m.queues[0][0];
    var h := TakeOne(s0, m, 0);
    Unmarked(s0, h, 0);
    EarlyInsertSucceeds(s0, workers, h, 0);
    KeyFree(h);
    p := InsertOne(s0, h, 0);
    assert m.queues[0][1..] == [];
    assert p.locals[0].ready == [t];
    assert p.locals[0].table.Keys == m.locals[0].table.Keys + {Key(h.tasks[t].id)};
  }

  lemma KeyFree(h: Sys)
    requires h.locals != [] && CanInsert(At(h, 0))
    ensures h.locals[0].hand.Some? && h.locals[0].hand.value < |h.tasks|
    ensures Key(h.tasks[h.locals[0].hand.value].id) !in h.locals[0].table
  {
  }

  /** The only ready task of worker 0 runs and waits. */
  lemma WaitOne(s0: Sys, m: Sys) returns (m': Sys)
    requires Easily(s0, m) && SameServer(s0, m) && m.locals != [] && m.locals[0].hand.None?
    requires |m.locals[0].ready| == 1 && m.locals[0].ready[0] < |m.tasks|
    ensures Easily(s0, m') && SameServer(s0, m') && m'.acc == m.acc && m'.spawned == m.spawned && m'.pool == m.pool
    ensures m'.queues == m.queues && |m'.locals| == |m.locals|
    ensures m'.locals[0].table == m.locals[0].table && m'.locals[0].ready == [] && m'.locals[0].hand.None?
    ensures forall k: nat :: 0 < k < |m.locals| ==> m'.locals[k] == m.locals[k]
  {
    hide Inv, Dated, Places, Modes, Lives, Unheard, Limits, Phases, Lies, Linked, Started, EasyRun;
    OneMore(s0, m, RunTask(0, Wait(0, 0)));
    m' := Apply(m, RunTask(0, Wait(0, 0)));
  }

  /** One spawn: worker 0 hosts the task, or another worker serves it at once. */
  lemma FillOne(s0: Sys, workers: nat, m: Sys, j: nat, c: nat) returns (m': Sys)
    requires Init(s0, workers) && Filling(s0, m, j, c) && c < |m.tasks| && j + 1 <= KEYS
    requires (j + 1) % |m.locals| == 0 ==> c < m.limit
    ensures Filling(s0, m', j + 1, if (j + 1) % |m.locals| == 0 then c + 1 else c)
  {
    hide Easily, Init, Spawn.Probe;
    var n := |m.locals|;
    var p, i, t := SpawnOne(s0, m);
    ProbeIs(j + 1, n);
    assert p.queues[i] == [t];
    if i == 0 {
      m' := HostOne(s0, workers, p);
    } else {
      m' := ServeOne(s0, p, i);
    }
    forall k: nat | k < |m'.queues| ensures m'.queues[k] == [] {
      if k != i { assert p.queues[k] == m.queues[k]; }
    }
  }

  lemma ProbeIs(j: nat, n: nat)
    requires j < IDS && n > 0
    ensures j % IDS == j && Spawn.Probe(0, j, n) == j % n
  {
    Quotient(j, 0, j, IDS);
  }

  lemma QuotientStep(j: nat, n: nat)
    requires n > 0
    ensures (j + 1) / n == if (j + 1) % n == 0 then j / n + 1 else j / n
  {
    var q, r := j / n, j % n;
    Split(j, n);
    NextQuotient(j, q, r, n);
  }

  lemma NextQuotient(j: nat, q: nat, r: nat, n: nat)
    requires r < n && j == n * q + r
    ensures (j + 1) / n == if (j + 1) % n == 0 then q + 1 else q
  {
    if r + 1 == n {
      Distribute(n, q, 1);
      Quotient(j + 1, q + 1, 0, n);
    } else {
      Quotient(j + 1, q, r + 1, n);
    }
  }

  /** A spawn before the one that overfills the table. */
  predicate Early(workers: nat, limit: nat, j: nat) { j < workers * (limit + 1) <= KEYS }

  /** One task in every round of the workers goes to worker 0. */
  ghost predicate FilledEvenly(s0: Sys, m: Sys, workers: nat, j: nat) {
    workers > 0 && Filling(s0, m, j, j / workers)
  }

  lemma {:induction false} FillAll(s0: Sys, workers: nat, j: nat) returns (m: Sys)
    requires Init(s0, workers) && workers > 1 && s0.limit > 0 && Early(workers, s0.limit, j)
    ensures FilledEvenly(s0, m, workers, j)
  {
    hide Init, Easily;
    Sizes(s0, workers);
    if j == 0 {
      Begin(s0, workers);
      Quotient(0, 0, 0, workers);
      m := s0;
    } else {
      EarlyIs(workers, s0.limit, j);
      hide Early;
      var p := FillAll(s0, workers, j - 1);
      QuotientStep(j - 1, workers);
      m := FillOne(s0, workers, p, j - 1, (j - 1) / workers);
    }
  }

  lemma Sizes(s0: Sys, workers: nat)
    requires Init(s0, workers)
    ensures |s0.locals| == workers && |s0.queues| == workers && |s0.tasks| == |s0.pool| == workers * s0.limit
    ensures s0.acc.Listening? && s0.exited == {} && s0.spawned == 0
    ensures forall i: nat :: i < workers ==> Bare(s0.locals[i]) && s0.queues[i] == []
  {
  }

  lemma EarlyIs(workers: nat, limit: nat, j: nat)
    requires workers > 1 && limit > 0 && Early(workers, limit, j) && j > 0
    ensures Early(workers, limit, j - 1) && j <= KEYS && (j - 1) / workers < workers * limit
    ensures j % workers == 0 ==> (j - 1) / workers < limit
  {
    Split(j, workers);
    Split(j - 1, workers);
    QuotientStep(j - 1, workers);
    MulMono(workers, limit, j / workers);
    MulMono(workers, limit, (j - 1) / workers);
    Distribute(workers, limit, 1);
    MulMono(limit, 1, workers);
  }

  /** Before 2^32 spawns every insertion succeeds. */
  lemma EarlyInsertSucceeds(s0: Sys, workers: nat, h: Sys, i: nat)
    requires Init(s0, workers) && Easily(s0, h) && h.spawned <= KEYS
    requires Holding(h, i) && h.tasks[h.locals[i].hand.value].mode.Spawned?
    ensures CanInsert(At(h, i))
  {
    hide Init, SysInv, EasyRun, Reachable;
    EasyIsReachable(s0, workers, h);
    ArrivalIsNumbered(h, i);
    forall u: nat | Resident(At(h, i), u) ensures Near(h.tasks[u].life, h.tasks[h.locals[i].hand.value].life) {
      assert Live(h, u);
    }
    InsertSucceedsInWindow(h, i);
  }

  /**
   * Table 0 holds worker_tasks + 1 tasks: all but one have run and wait, and that one is
   * ready for its first run.
   */
  ghost predicate Overfull(s0: Sys, m: Sys) {
    && Easily(s0, m) && SameServer(s0, m) && m.locals != [] && m.locals[0].hand.None?
    && |m.locals[0].table| == m.limit + 1 && |m.locals[0].ready| == 1
    && m.locals[0].ready[0] < |m.tasks| && m.tasks[m.locals[0].ready[0]].mode.Spawned?
  }

  /**
   * Every server with two workers or more can come to hold worker_tasks + 1 tasks in one
   * table, in a run in which every queue is empty whenever a task is put on one.  (The number
   * of tasks is a C int.)
   */
  lemma TableOverflows(s0: Sys, workers: nat) returns (m: Sys)
    requires Init(s0, workers) && workers > 1 && s0.limit > 0 && workers * s0.limit < 0x8000_0000
    ensures Overfull(s0, m)
  {
    hide Init, Easily, Spawn.Probe;
    Sizes(s0, workers);
    var c := s0.limit + 1;
    LastSpawn(workers, s0.limit);
    var j: nat := workers * c - 1;
    var f := FillAll(s0, workers, j);
    var p, i, t := SpawnOne(s0, f);
    ProbeIs(j + 1, workers);
    assert p.queues[0] == [t];
    m := AdmitNext(s0, workers, p);
  }

  lemma LastSpawn(workers: nat, limit: nat)
    requires workers > 1 && limit > 0 && workers * limit < 0x8000_0000
    ensures var j := workers * (limit + 1) - 1;
            j >= 0 && Early(workers, limit, j) && j / workers == limit && (j + 1) % workers == 0 && j + 1 <= KEYS
    ensures limit < workers * limit
  {
    Distribute(workers, limit, 1);
    MulMono(workers, 0, limit);
    MulMono(limit, 1, workers);
    Quotient(workers * (limit + 1), limit + 1, 0, workers);
    Quotient(workers * (limit + 1) - 1, limit, workers - 1, workers);
  }

  /** Some table comes to hold more than worker_tasks tasks if and only if there are two workers or more. */
  lemma AdmissionPassesLimitExactly(s0: Sys, workers: nat)
    requires Init(s0, workers) && workers > 0 && s0.limit > 0 && workers * s0.limit < 0x8000_0000
    ensures (exists steps, s, i: nat :: EasyRun(s0, steps, s) && i < |s.locals| && |s.locals[i].table| > s.limit)
            <==> workers > 1
    ensures (exists steps, s, i: nat :: Runs(s0, steps, s) && i < |s.locals| && |s.locals[i].table| > s.limit)
            <==> workers > 1
  {
    hide Init, SysInv, EasyRun, Runs, Started;
    if workers > 1 {
      var m := TableOverflows(s0, workers);
      var steps :| EasyRun(s0, steps, m);
      EasyRunsAreRuns(s0, steps, m);
      assert |m.locals[0].table| > m.limit;
    }
    forall steps, s, i: nat | Runs(s0, steps, s) && i < |s.locals| && |s.locals[i].table| > s.limit ensures workers > 1 {
      if workers == 1 { OneWorkerStaysInLimit(s0, steps, s); }
    }
    forall steps, s | EasyRun(s0, steps, s) ensures Runs(s0, steps, s) { EasyRunsAreRuns(s0, steps, s); }
  }
}
