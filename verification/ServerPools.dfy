/**
 * The pools of an HTTP server over the runs of the server itself: each worker's admissions,
 * first dispatches and returns move its four pools, so what fails there fails here
 * (source/lawd/http_server.c, source/lawd/server.c).
 */
module ServerPools {
  import opened Pigeonhole
  import opened Worker
  import opened StaleTimers
  import opened Server
  import opened ServerTheorems
  import opened Admission

  /** The tasks in worker i's table. */
  function Residents(s: Sys, i: nat): set<nat>
    requires i < |s.locals|
  {
    set t: nat | t < |s.tasks| && Resident(At(s, i), t)
  }

  /** Those whose callback law_hts_entry has been called and has not returned. */
  function UnderWay(s: Sys, i: nat): set<nat>
    requires i < |s.locals|
  {
    set t: nat | t < |s.tasks| && Resident(At(s, i), t) && !s.tasks[t].mode.Spawned?
  }

  /** The next dispatch of worker i enters law_hts_entry with an empty pool, for pools of worker_tasks items. */
  predicate Dry(s: Sys, i: nat) {
    && Free(s, i) && s.locals[i].ready != [] && s.locals[i].ready[0] < |s.tasks|
    && s.tasks[s.locals[i].ready[0]].mode.Spawned? && |UnderWay(s, i)| >= s.limit
  }

  lemma ResidentsCount(s: Sys, i: nat)
    requires SysInv(s) && i < |s.locals|
    ensures |Residents(s, i)| == |s.locals[i].table|
  {
    hide ReadyOk, Awakable, Dated, Places, Modes, Lives, Unheard, Limits, Phases;
    assert Indexed(At(s, i));
    var table, rs := s.locals[i].table, Residents(s, i);
    forall k | k in table ensures table[k] in rs { assert Resident(At(s, i), table[k]); }
    InjectiveSize(table, rs);
    var keys := map t | t in rs :: Key(s.tasks[t].id);
    assert forall t, u :: t in keys && u in keys && keys[t] == keys[u] ==> t == u;
    assert keys.Keys == rs;
    InjectiveSize(keys, table.Keys);
  }

  // When a pool runs dry ------------------------------------------------------------------------

  /** A single worker never has worker_tasks entries under way when another starts. */
  lemma OneWorkerIsNeverDry(s0: Sys, steps: seq<Step>, s: Sys, i: nat)
    requires Init(s0, 1) && Runs(s0, steps, s)
    ensures !Dry(s, i)
  {
    hide Init, SysInv, Runs, Resident;
    InitInv(s0, 1);
    RunKeepsInv(s0, steps, s);
    OneWorkerStaysInLimit(s0, steps, s);
    if Dry(s, i) {
      var t := s.locals[0].ready[0];
      ReadyIsResident(s, 0);
      ResidentsCount(s, 0);
      assert t in Residents(s, 0) && t !in UnderWay(s, 0);
      Smaller(UnderWay(s, 0) + {t}, Residents(s, 0));
    }
  }

  lemma ReadyIsResident(s: Sys, i: nat)
    requires SysInv(s) && i < |s.locals| && s.locals[i].ready != []
    ensures s.locals[i].ready[0] < |s.tasks| && Resident(At(s, i), s.locals[i].ready[0])
  {
    assert s.locals[i].ready[0] in At(s, i).ready;
  }

  /** With table 0 overfull, worker_tasks entries are under way and another is about to start. */
  lemma OverfullIsDry(s0: Sys, m: Sys)
    requires Overfull(s0, m)
    ensures Dry(m, 0)
  {
    hide Dated, Linked, Places, Modes, Lives, Unheard, Limits, Phases, Started, EasyRun;
    var t := m.locals[0].ready[0];
    assert Inv(At(m, 0));
    assert t in At(m, 0).ready;
    ResidentsCount(m, 0);
    forall u | u in Residents(m, 0) && u != t ensures u in UnderWay(m, 0) {
      assert Awakable(At(m, 0), m.tasks[u]) && u !in At(m, 0).ready;
    }
    Smaller(Residents(m, 0) - {t}, UnderWay(m, 0));
  }

  /**
   * A worker comes to dispatch a new entry while worker_tasks of its entries are under way,
   * so that its pools, of worker_tasks items each, have nothing for it, if and only if the
   * server has two workers or more; it does so even if every queue always has room.
   */
  lemma PoolsRunDryExactly(s0: Sys, workers: nat)
    requires Init(s0, workers) && workers > 0 && s0.limit > 0 && workers * s0.limit < 0x8000_0000
    ensures (exists steps, s, i: nat :: EasyRun(s0, steps, s) && Dry(s, i)) <==> workers > 1
    ensures (exists steps, s, i: nat :: Runs(s0, steps, s) && Dry(s, i)) <==> workers > 1
  {
    hide Init, EasyRun, Runs, Dry, SysInv, Started;
    if workers > 1 {
      var m := TableOverflows(s0, workers);
      OverfullIsDry(s0, m);
      var steps :| EasyRun(s0, steps, m);
      EasyRunsAreRuns(s0, steps, m);
      assert Dry(m, 0);
    }
    forall steps, s, i: nat | Runs(s0, steps, s) && Dry(s, i) ensures workers > 1 {
      if workers == 1 { OneWorkerIsNeverDry(s0, steps, s, i); }
    }
    forall steps, s | EasyRun(s0, steps, s) ensures Runs(s0, steps, s) { EasyRunsAreRuns(s0, steps, s); }
  }
}
