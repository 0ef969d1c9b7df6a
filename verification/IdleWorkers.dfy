/**
 * Between ticks: what is known of a worker whenever nothing is on its ready list, so that
 * what is proved of a tick that starts at rest holds of every tick of a running server
 * (law_worker_run and law_worker_tick in source/lawd/server.c).
 */
module IdleWorkers {
  import opened Sequences
  import opened Worker
  import opened StaleTimers
  import opened Tick
  import opened NoLostWakeup
  import opened Server
  import opened ServerTheorems
  import opened TickRuns

  // Rest ------------------------------------------------------------------------------------

  /** A task that is on no ready list holds no event. */
  predicate Silent(r: Task) { r.mark || r.events == [] }

  ghost predicate AllSilent(s: Sys) { forall t: nat :: t < |s.tasks| ==> Silent(s.tasks[t]) }

  lemma StepKeepsSilent(s: Sys, a: Step)
    requires SysInv(s) && Enabled(s, a) && AllSilent(s)
    ensures AllSilent(Apply(s, a))
  {
    hide SysInv, Apply, AllSilent;
    if a.Fire? || a.Deliver? {
      DeliveryKeepsSilent(s, a);
    } else if a.RunTask? || a.InsertTask? || a.GiveBack? {
      WorkKeepsSilent(s, a);
    } else {
      RestKeepsSilent(s, a);
    }
  }

  lemma DeliveryKeepsSilent(s: Sys, a: Step)
    requires SysInv(s) && Enabled(s, a) && AllSilent(s) && (a.Fire? || a.Deliver?)
    ensures AllSilent(Apply(s, a))
  {
    hide Inv, Dated, Linked, Places, Modes, Lives, Unheard, Limits, Phases;
  }

  lemma WorkKeepsSilent(s: Sys, a: Step)
    requires SysInv(s) && Enabled(s, a) && AllSilent(s) && (a.RunTask? || a.InsertTask? || a.GiveBack?)
    ensures AllSilent(Apply(s, a))
  {
    hide Inv, Dated, Linked, Places, Modes, Lives, Unheard, Limits, Phases;
  }

  lemma RestKeepsSilent(s: Sys, a: Step)
    requires SysInv(s) && Enabled(s, a) && AllSilent(s)
    requires !a.Fire? && !a.Deliver? && !a.RunTask? && !a.InsertTask? && !a.GiveBack?
    ensures AllSilent(Apply(s, a))
  {
    hide Inv, Dated, Linked, Places, Modes, Lives, Unheard, Limits, Phases;
  }

  lemma {:induction false} RunKeepsSilent(s: Sys, steps: seq<Step>, s': Sys)
    requires SysInv(s) && AllSilent(s) && Runs(s, steps, s')
    ensures AllSilent(s')
    decreases |steps|
  {
    hide SysInv, Enabled, Apply, AllSilent;
    if steps != [] {
      var m :| Runs(s, Front(steps), m) && Next(m, Last(steps), s');
      RunKeepsSilent(s, Front(steps), m);
      RunKeepsInv(s, Front(steps), m);
      StepKeepsSilent(m, Last(steps));
    }
  }

  lemma ReachableIsSilent(s: Sys)
    requires Reachable(s)
    ensures AllSilent(s)
  {
    hide SysInv, Runs;
    var s0, workers, steps :| Init(s0, workers) && Runs(s0, steps, s);
    InitInv(s0, workers);
    RunKeepsSilent(s0, steps, s);
  }

  lemma SilentRests(w: State)
    requires Idle(w) && w.ready == [] && forall t: nat :: t < |w.tasks| ==> Silent(w.tasks[t])
    ensures AtRest(w)
  {
  }

  /** In every reachable state a worker with nothing ready and nothing in its hand is at rest. */
  lemma IdleIsAtRest(s: Sys, i: nat)
    requires Reachable(s) && Free(s, i) && s.locals[i].ready == []
    ensures AtRest(At(s, i))
  {
    hide Reachable, SysInv, Idle, AtRest;
    ReachableInv(s);
    ReachableIsSilent(s);
    IdleLocal(s, i);
    SilentRests(At(s, i));
  }

  // Arrivals ----------------------------------------------------------------------------------

  /** The residents of worker i and the first n tasks of its queue are of lives within 2^32 spawns. */
  ghost predicate Contemporary(s: Sys, i: nat, n: nat)
    requires i < |s.locals| && i < |s.queues| && n <= |s.queues[i]|
  {
    && (forall t: nat, u: nat :: t in s.queues[i][..n] && Resident(At(s, i), u) && t < |s.tasks| ==>
          Near(s.tasks[t].life, s.tasks[u].life))
    && (forall t: nat, u: nat :: t in s.queues[i][..n] && u in s.queues[i][..n] && t < |s.tasks| && u < |s.tasks| ==>
          Near(s.tasks[t].life, s.tasks[u].life))
  }

  /** A task in a queue is set up, unmarked, without events, and of a life of its own. */
  lemma QueuedTask(s: Sys, i: nat, t: nat)
    requires SysInv(s) && i < |s.locals| && i < |s.queues| && t in s.queues[i]
    ensures t < |s.tasks| && s.tasks[t].mode.Spawned? && !s.tasks[t].mark && s.tasks[t].events == []
    ensures Numbered(s.tasks[t]) && Live(s, t) && !Resident(At(s, i), t)
  {
    hide Inv, Dated, Linked, Unheard, Limits, Phases, Resident;
    PlaceOf(s, t, InQueue(i)) by { assert Lies(s, t, InQueue(i)); }
    NotOwned(s, t, i);
    assert Live(s, t);
  }

  lemma KeysApartFrom(s: Sys, t: nat, u: nat)
    requires SysInv(s) && t < |s.tasks| && u < |s.tasks| && t != u && Live(s, t) && Live(s, u)
    requires Near(s.tasks[t].life, s.tasks[u].life)
    ensures Key(s.tasks[t].id) != Key(s.tasks[u].id)
  {
    hide Inv, Dated, Linked, Places, Modes, Unheard, Limits, Phases, Key, Near;
    SameKey(s.tasks[t], s.tasks[u]);
  }

  lemma QueueIsDistinct(s: Sys, i: nat)
    requires SysInv(s) && i < |s.queues|
    ensures forall j, k :: 0 <= j < k < |s.queues[i]| ==> s.queues[i][j] != s.queues[i][k]
  {
  }

  lemma ResidentIsLive(s: Sys, i: nat, u: nat)
    requires SysInv(s) && i < |s.locals| && Resident(At(s, i), u)
    ensures u < |s.tasks| && Live(s, u)
  {
    hide Inv, Dated, Linked, Modes, Lives, Unheard, Limits, Phases;
    PlaceOf(s, u, InTable(i)) by { assert Lies(s, u, InTable(i)); }
  }

  lemma KeyIsFree(s: Sys, i: nat, t: nat)
    requires SysInv(s) && i < |s.locals| && i < |s.queues| && t in s.queues[i] && t < |s.tasks|
    requires forall u: nat :: Resident(At(s, i), u) ==> Near(s.tasks[t].life, s.tasks[u].life)
    ensures Key(s.tasks[t].id) !in s.locals[i].table
  {
    hide SysInv, Resident, Key, Near, Live;
    var k := Key(s.tasks[t].id);
    QueuedTask(s, i, t);
    if k in s.locals[i].table {
      var u := s.locals[i].table[k];
      TableIsIndexed(s, i, k);
      ResidentIsLive(s, i, u);
      KeysApartFrom(s, t, u);
    }
  }

  lemma TableIsIndexed(s: Sys, i: nat, k: nat)
    requires SysInv(s) && i < |s.locals| && k in s.locals[i].table
    ensures var u := s.locals[i].table[k]; Resident(At(s, i), u) && Key(s.tasks[u].id) == k
  {
    hide Dated, ReadyOk, Awakable, Linked, Places, Modes, Lives, Unheard, Limits, Phases;
    assert Indexed(At(s, i));
  }

  /** In every reachable state the first n tasks of a worker's queue can be inserted, unless 2^32 spawns lie between. */
  lemma QueueArrives(s: Sys, i: nat, n: nat)
    requires Reachable(s) && i < |s.locals| && i < |s.queues| && n <= |s.queues[i]| && Contemporary(s, i, n)
    ensures Arriving(At(s, i), s.queues[i][..n])
  {
    hide Reachable, SysInv, Resident, Key, Near, Live;
    ReachableInv(s);
    QueueIsDistinct(s, i);
    var q := s.queues[i];
    var a := q[..n];
    forall j: nat | j < n
      ensures a[j] < |s.tasks| && s.tasks[a[j]].mode.Spawned? && !s.tasks[a[j]].mark && s.tasks[a[j]].events == []
      ensures Key(s.tasks[a[j]].id) !in s.locals[i].table && Live(s, a[j])
    {
      assert q[j] in q && a[j] in a;
      QueuedTask(s, i, q[j]);
      KeyIsFree(s, i, q[j]);
    }
    forall j: nat, k: nat | j < k < n ensures Key(s.tasks[a[j]].id) != Key(s.tasks[a[k]].id) {
      assert a[j] in a && a[k] in a;
      KeysApartFrom(s, a[j], a[k]);
    }
  }

  // Ticks -------------------------------------------------------------------------------------

  /** What the environment can do in a tick of worker i: entries of its own, its own queue, no return of 6. */
  ghost predicate Happens(s: Sys, i: nat, ins: Inputs) {
    && i < |s.locals| && i < |s.queues| && multiset(ins.fired) <= s.locals[i].timer && ins.arrivals == s.queues[i]
    && ins.admitted <= Admissible(|s.locals[i].table|, s.limit, |s.queues[i]|) && Honest(ins.o)
  }

  lemma HappensIsOffered(s: Sys, i: nat, ins: Inputs)
    requires Happens(s, i, ins) && Idle(At(s, i)) && Arriving(At(s, i), s.queues[i][..ins.admitted])
    ensures Offered(s, i, ins)
  {
  }

  /**
   * No lost wakeup, for the running server: from every reachable state in which worker i is
   * idle, a tick of it leads to a reachable state in which it is idle again and at rest, and
   * between them lie only steps of the state machine.
   */
  lemma IdleWorkersTick(s: Sys, i: nat, ins: Inputs) returns (s': Sys)
    requires Reachable(s) && Free(s, i) && s.locals[i].ready == [] && Happens(s, i, ins) && Contemporary(s, i, ins.admitted)
    ensures AtRest(At(s, i)) && Offered(s, i, ins)
    ensures RunsTo(s, s') && Reachable(s') && Ticked(s, s', i, ins)
    ensures Free(s', i) && s'.locals[i].ready == [] && AtRest(At(s', i))
  {
    hide Reachable, SysInv, AtRest, Idle, Contemporary, Arriving, Happens, Offered, Runs, TickSpec, Proper;
    ReachableInv(s);
    IdleIsAtRest(s, i);
    IdleLocal(s, i);
    Bounds(s, i, ins);
    QueueArrives(s, i, ins.admitted);
    HappensIsOffered(s, i, ins);
    s' := TickIsARun(s, i, ins);
    RestAfter(s, s', i, ins);
    ReachOn(s, s');
  }

  lemma Bounds(s: Sys, i: nat, ins: Inputs)
    requires Happens(s, i, ins)
    ensures i < |s.locals| && i < |s.queues| && ins.admitted <= |s.queues[i]|
  {
  }

  lemma RestAfter(s: Sys, s': Sys, i: nat, ins: Inputs)
    requires i < |s.locals| && AtRest(At(s, i)) && Ticked(s, s', i, ins)
    ensures i < |s'.locals| && AtRest(At(s', i)) && s'.locals[i].ready == []
  {
    hide TickSpec, Proper;
    EndsAtRest(At(s, i), s.pool, ins);
    assert At(s', i) == TickSpec(At(s, i), s.pool, ins).0;
    assert At(s', i).ready == s'.locals[i].ready;
  }

  lemma {:induction false} RunsOn(s0: Sys, a: seq<Step>, s: Sys, b: seq<Step>, s': Sys)
    requires Runs(s0, a, s) && Runs(s, b, s')
    ensures Runs(s0, a + b, s')
    decreases |b|
  {
    hide Next;
    if b == [] {
      assert a + b == a;
    } else {
      var m :| Runs(s, Front(b), m) && Next(m, Last(b), s');
      RunsOn(s0, a, s, Front(b), m);
      assert Front(a + b) == a + Front(b) && Last(a + b) == Last(b);
    }
  }

  lemma ReachOn(s: Sys, s': Sys)
    requires Reachable(s) && RunsTo(s, s')
    ensures Reachable(s')
  {
    hide Init, Runs;
    var s0, workers, a :| Init(s0, workers) && Runs(s0, a, s);
    var b :| Runs(s, b, s');
    RunsOn(s0, a, s, b, s');
  }
}
