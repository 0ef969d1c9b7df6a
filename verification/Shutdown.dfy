/**
 * Shutting down: a worker leaves its loop only after it was sent SHUTDOWN, which is sent once
 * to each worker after the pool was seen full, and the shutdown can always be carried through
 * once every task is back (law_server_spin and the worker's loop in source/lawd/server.c).
 */
module Shutdown {
  import opened Sequences
  import opened Worker
  import opened StaleTimers
  import opened Server
  import opened ServerTheorems
  import opened TickRuns

  // Who was told ----------------------------------------------------------------------------

  /** Every worker that left its loop was sent SHUTDOWN, and no more messages were sent than there are workers. */
  predicate Told(s: Sys) {
    && (s.acc.Stopped? ==> s.acc.sent <= |s.locals|)
    && (forall i :: i in s.exited ==> s.acc.Stopped? && i < s.acc.sent)
  }

  lemma StepKeepsTold(s: Sys, a: Step)
    requires Shape(s) && Enabled(s, a) && Told(s)
    ensures Told(Apply(s, a)) && |Apply(s, a).locals| == |s.locals|
  {
    hide Insert, TimerPop, NotifyId, Dispatch, Give, CanInsert;
  }

  lemma {:induction false} RunKeepsTold(s: Sys, steps: seq<Step>, s': Sys)
    requires Told(s) && Runs(s, steps, s')
    ensures Told(s')
    decreases |steps|
  {
    hide Enabled, Apply, Told;
    if steps != [] {
      var m :| Runs(s, Front(steps), m) && Next(m, Last(steps), s');
      RunKeepsTold(s, Front(steps), m);
      StepKeepsTold(m, Last(steps));
    }
  }

  /**
   * In every reachable state: whoever left its loop was sent SHUTDOWN, no one was sent it
   * before every task was back in the pool, and no one twice.
   */
  lemma OnlyToldWorkersExit(s: Sys)
    requires Reachable(s)
    ensures forall i :: i in s.exited ==> s.acc.Stopped? && i < s.acc.sent
    ensures s.acc.Stopped? ==> s.acc.sent <= |s.locals| && |s.pool| == |s.tasks|
  {
    ReachableInv(s);
    hide Runs, SysInv;
    var s0, workers, steps :| Init(s0, workers) && Runs(s0, steps, s);
    RunKeepsTold(s0, steps, s);
    assert Phases(s);
  }

  /** No step brings the accept thread back from draining, or spawns anything once it has got there. */
  lemma StepIsForward(s: Sys, a: Step)
    requires Shape(s) && Enabled(s, a) && (s.acc.Draining? || s.acc.Stopped?)
    ensures var s' := Apply(s, a);
            && s'.spawned == s.spawned
            && (s.acc.Draining? ==> s'.acc.Draining? || (s'.acc == Stopped(0) && |s.pool| == |s.tasks|))
            && (s.acc.Stopped? ==> s'.acc.Stopped? && s.acc.sent <= s'.acc.sent <= s.acc.sent + 1)
  {
    hide Insert, TimerPop, NotifyId, Dispatch, Give, CanInsert;
  }

  /** In no run does the accept thread come back from draining: nothing is spawned any more. */
  lemma {:induction false} DrainingIsFinal(s: Sys, steps: seq<Step>, s': Sys)
    requires Runs(s, steps, s') && (s.acc.Draining? || s.acc.Stopped?)
    ensures s'.spawned == s.spawned && (s'.acc.Draining? || s'.acc.Stopped?) && (s.acc.Stopped? ==> s'.acc.Stopped?)
    decreases |steps|
  {
    hide Enabled, Apply;
    if steps != [] {
      var m :| Runs(s, Front(steps), m) && Next(m, Last(steps), s');
      DrainingIsFinal(s, Front(steps), m);
      StepIsForward(m, Last(steps));
    }
  }

  /** An accept that fails leaves the server as it was before the pool was looked at. */
  lemma RefusalIsUndone(s: Sys)
    requires Shape(s) && s.acc.Listening?
    ensures Enabled(s, Check) <==> s.pool != []
    ensures Enabled(s, Check) ==> Enabled(Apply(s, Check), Refuse) && Apply(Apply(s, Check), Refuse) == s
  {
  }

  // Carrying it through ---------------------------------------------------------------------

  /** All were told and all have left. */
  predicate Down(s: Sys) { s.acc == Stopped(|s.locals|) && forall i: nat :: i < |s.locals| ==> i in s.exited }

  lemma {:induction false} PostAll(s0: Sys, s: Sys, n: nat) returns (s': Sys)
    requires RunsTo(s0, s) && SysInv(s) && s.acc == Stopped(0) && s.exited == {} && n <= |s.locals|
    ensures RunsTo(s0, s') && SysInv(s') && s' == s.(acc := Stopped(n))
  {
    hide SysInv, RunsTo;
    if n == 0 {
      s' := s;
    } else {
      var m := PostAll(s0, s, n - 1);
      OneMore(s0, m, Post) by { assert SysInv(m); }
      s' := ApplyPost(m);
    }
  }

  lemma ApplyPost(m: Sys) returns (s': Sys)
    requires SysInv(m) && Enabled(m, Post)
    ensures s' == Apply(m, Post) == m.(acc := Stopped(m.acc.sent + 1))
  {
    s' := Apply(m, Post);
  }

  lemma {:induction false} ExitAll(s0: Sys, s: Sys, n: nat) returns (s': Sys)
    requires RunsTo(s0, s) && SysInv(s) && s.acc == Stopped(|s.locals|) && s.exited == {} && n <= |s.locals|
    ensures RunsTo(s0, s') && SysInv(s') && s' == s.(exited := s'.exited)
    ensures forall i: nat :: i in s'.exited <==> i < n
  {
    hide SysInv, RunsTo;
    if n == 0 {
      s' := s;
    } else {
      var m := ExitAll(s0, s, n - 1);
      s' := ExitOne(m, n - 1);
      OneMore(s0, m, Exit(n - 1));
    }
  }

  lemma ExitOne(m: Sys, i: nat) returns (s': Sys)
    requires SysInv(m) && m.acc.Stopped? && i < m.acc.sent && i < |m.locals| && i !in m.exited
    ensures Enabled(m, Exit(i)) && Shape(m) && s' == Apply(m, Exit(i)) == m.(exited := m.exited + {i})
  {
    StoppedOwnsNothing(m, i);
    s' := Apply(m, Exit(i));
  }

  /** From a reachable state in which every task is back in the pool, the server can be shut down. */
  lemma ServerCanShutDown(s: Sys)
    requires Reachable(s) && s.acc.Listening? && |s.pool| == |s.tasks|
    ensures exists s' :: RunsTo(s, s') && Down(s')
  {
    ReachableInv(s);
    assert s.exited == {};
    assert Runs(s, [], s) && RunsTo(s, s);
    hide SysInv, RunsTo, Runs, Reachable;
    var m := Leave(s);
    m := PostAll(s, m, |s.locals|);
    m := ExitAll(s, m, |s.locals|);
  }

  /** The accept loop is left and the pool is seen full. */
  lemma Leave(s: Sys) returns (s': Sys)
    requires RunsTo(s, s) && SysInv(s) && s.acc.Listening? && |s.pool| == |s.tasks|
    ensures RunsTo(s, s') && SysInv(s') && s' == s.(acc := Stopped(0))
  {
    hide RunsTo;
    OneMore(s, s, Stop);
    var m := s.(acc := Draining);
    OneMore(s, m, Full);
    s' := s.(acc := Stopped(0));
  }
}
