/**
 * The tick that a worker thread performs is a run of the server's state machine in
 * which only that worker moves, so what every run keeps, every tick keeps
 * (law_worker_tick in source/lawd/server.c).
 */
module TickRuns {
  import opened Sequences
  import opened Worker
  import opened StaleTimers
  import opened Tick
  import opened NoLostWakeup
  import opened Server

  ghost predicate RunsTo(s: Sys, s': Sys) { exists steps :: Runs(s, steps, s') }

  /** s' is reached from s by steps of worker i alone, which ends with its hand empty. */
  ghost predicate Moved(s: Sys, s': Sys, i: nat) {
    && RunsTo(s, s') && SysInv(s') && Free(s', i)
    && |s'.locals| == |s.locals| && |s'.queues| == |s.queues| && s'.limit == s.limit
  }

  lemma NoStep(s: Sys, i: nat)
    requires SysInv(s) && Free(s, i)
    ensures Moved(s, s, i)
  {
    assert Runs(s, [], s);
  }

  lemma OneMore(s: Sys, m: Sys, a: Step)
    requires RunsTo(s, m) && SysInv(m) && Enabled(m, a)
    ensures RunsTo(s, Apply(m, a)) && SysInv(Apply(m, a))
  {
    hide Inv, Dated, Linked, Places, Modes, Lives, Unheard, Limits, Phases, Lies;
    var steps :| Runs(s, steps, m);
    StepKeepsInv(m, a);
    assert Next(m, a, Apply(m, a));
    FrontLast(steps, a);
    assert Runs(s, steps + [a], Apply(m, a));
  }

  lemma IdleLocal(s: Sys, i: nat)
    requires SysInv(s) && Free(s, i)
    ensures Idle(At(s, i)) && Indexed(At(s, i))
  {
  }

  lemma {:induction false} FireRuns(s: Sys, i: nat, fired: seq<Entry>) returns (s': Sys)
    requires SysInv(s) && Free(s, i) && Idle(At(s, i)) && multiset(fired) <= s.locals[i].timer
    ensures Moved(s, s', i) && At(s', i) == FireAll(At(s, i), fired)
    ensures s'.queues == s.queues && s'.pool == s.pool
    decreases |fired|
  {
    hide SysInv, Inv, TimerPop, Runs, Dated, Linked;
    if fired == [] {
      NoStep(s, i);
      s' := s;
    } else {
      var n := |fired| - 1;
      assert fired == fired[..n] + [fired[n]];
      var m := FireRuns(s, i, fired[..n]);
      FireAllTimer(At(s, i), fired[..n]);
      IdleLocal(m, i);
      FireOne(s, m, i, fired[n]);
      s' := Apply(m, Fire(i, fired[n]));
    }
  }

  lemma FireOne(s: Sys, m: Sys, i: nat, e: Entry)
    requires Moved(s, m, i) && e in m.locals[i].timer && Idle(At(m, i))
    ensures Shape(m) && Enabled(m, Fire(i, e))
    ensures var s' := Apply(m, Fire(i, e));
            && Moved(s, s', i) && At(s', i) == TimerPop(At(m, i), e) && s'.queues == m.queues && s'.pool == m.pool
  {
    hide Inv, Dated, Places, Modes, Lives, Unheard, Limits, Phases, Lies, TimerPop;
    IdleLocal(m, i);
    OneMore(s, m, Fire(i, e));
    TimerPopKeepsInv(At(m, i), e);
  }

  lemma NotifyOne(s: Sys, m: Sys, i: nat, n: Notice)
    requires Moved(s, m, i) && Idle(At(m, i))
    ensures Shape(m) && Enabled(m, Deliver(i, n.id, n.ev)) && Indexed(At(m, i))
    ensures var s' := Apply(m, Deliver(i, n.id, n.ev));
            && Moved(s, s', i) && At(s', i) == NotifyId(At(m, i), n.id, n.ev)
            && s'.queues == m.queues && s'.pool == m.pool
  {
    hide Inv, Dated, Places, Modes, Lives, Unheard, Limits, Phases, Lies, NotifyId;
    IdleLocal(m, i);
    OneMore(s, m, Deliver(i, n.id, n.ev));
    NotifyIdKeepsInv(At(m, i), n.id, n.ev);
  }

  lemma {:induction false} NotifyRuns(s0: Sys, s: Sys, i: nat, notes: seq<Notice>) returns (s': Sys)
    requires Moved(s0, s, i) && Idle(At(s, i))
    ensures Moved(s0, s', i) && At(s', i) == NotifyAll(At(s, i), notes)
    ensures s'.queues == s.queues && s'.pool == s.pool
    decreases |notes|
  {
    hide SysInv, Inv, NotifyId, Runs, Dated, Linked;
    if notes == [] {
      s' := s;
    } else {
      var n := |notes| - 1;
      var m := NotifyRuns(s0, s, i, notes[..n]);
      NotifyOne(s0, m, i, notes[n]);
      s' := Apply(m, Deliver(i, notes[n].id, notes[n].ev));
    }
  }

  /** Take a task from the incoming queue and insert it. */
  lemma AdmitOneRuns(s: Sys, m: Sys, i: nat) returns (s': Sys)
    requires Moved(s, m, i) && Idle(At(m, i)) && i < |m.queues| && m.queues[i] != []
    requires |m.locals[i].table| <= m.limit && Arriving(At(m, i), m.queues[i][..1])
    ensures Moved(s, s', i) && At(s', i) == Admit(At(m, i), m.queues[i][0])
    ensures s'.queues == m.queues[i := m.queues[i][1..]] && s'.pool == m.pool
  {
    hide Dated, Inv, Places, Modes, Lives, Unheard, Limits, Phases, Lies, Insert, RunsTo, Linked, Locals;
    var t := m.queues[i][0];
    assert m.queues[i][..1][0] == t;
    var h := TakeRuns(s, m, i);
    assert At(h, i) == At(m, i).(hand := Some(t));
    s' := InsertRuns(s, h, i);
  }

  lemma TakeRuns(s: Sys, m: Sys, i: nat) returns (h: Sys)
    requires Moved(s, m, i) && i < |m.queues| && m.queues[i] != [] && |m.locals[i].table| <= m.limit
    ensures RunsTo(s, h) && SysInv(h) && Shape(m) && Enabled(m, Take(i))
    ensures h == Apply(m, Take(i))
  {
    hide Inv, Dated, Places, Modes, Lives, Unheard, Limits, Phases, Lies;
    OneMore(s, m, Take(i));
    h := Apply(m, Take(i));
  }

  lemma InsertRuns(s: Sys, h: Sys, i: nat) returns (s': Sys)
    requires RunsTo(s, h) && SysInv(h) && Holding(h, i) && CanInsert(At(h, i))
    requires |h.locals| == |s.locals| && |h.queues| == |s.queues| && h.limit == s.limit
    ensures Moved(s, s', i) && At(s', i) == Insert(At(h, i)) && s'.queues == h.queues && s'.pool == h.pool
  {
    hide Inv, Dated, Places, Modes, Lives, Unheard, Limits, Phases, Lies;
    OneMore(s, h, InsertTask(i));
    s' := Apply(h, InsertTask(i));
  }

  lemma {:induction false} AdmitRuns(s0: Sys, s: Sys, i: nat, n: nat) returns (s': Sys)
    requires Moved(s0, s, i) && Idle(At(s, i)) && i < |s.queues| && n <= |s.queues[i]|
    requires Arriving(At(s, i), s.queues[i][..n]) && (n > 0 ==> |s.locals[i].table| + n <= s.limit + 1)
    ensures Moved(s0, s', i) && At(s', i) == AdmitAll(At(s, i), s.queues[i], n)
    ensures s'.queues == s.queues[i := s.queues[i][n..]] && s'.pool == s.pool && s'.limit == s.limit
  {
    hide SysInv, Inv, Runs, Dated, Linked, Admit, Arriving, Admitted;
    if n == 0 {
      s' := s;
    } else {
      var q := s.queues[i];
      assert q[..n][..n - 1] == q[..n - 1];
      ArrivingPrefix(At(s, i), q[..n], n - 1);
      var m := AdmitRuns(s0, s, i, n - 1);
      AdmitAllKeeps(At(s, i), q, n - 1);
      SizeOf(At(s, i), At(m, i), q, n - 1);
      NextArrives(At(s, i), At(m, i), q, n - 1);
      assert m.queues[i] == q[n - 1..] && q[n - 1..][..1] == [q[n - 1]];
      s' := AdmitOneRuns(s0, m, i);
      assert q[n - 1..][1..] == q[n..];
      assert At(s', i) == AdmitAll(At(s, i), q, n);
    }
  }

  lemma SizeOf(s: State, r: State, ts: seq<nat>, n: nat)
    requires n <= |ts| && Admitted(s, r, ts[..n])
    ensures |r.table| == |s.table| + n
  {
  }

  /** Run the head of the ready list and, if it finished, give it back to the pool. */
  lemma RunOneRuns(s: Sys, m: Sys, i: nat, o: Outcome) returns (s': Sys)
    requires Moved(s, m, i) && Idle(At(m, i)) && m.locals[i].ready != [] && m.locals[i].ready[0] < |m.tasks|
    requires o != Return(SUSPENDED_SIGNAL)
    ensures Moved(s, s', i) && (At(s', i), s'.pool) == RunOne(At(m, i), m.pool, o)
  {
    hide Inv, Dated, Places, Modes, Lives, Unheard, Limits, Phases, Lies;
    OneMore(s, m, RunTask(i, o));
    var d := Apply(m, RunTask(i, o));
    if o.Return? {
      OneMore(s, d, GiveBack(i));
      s' := Apply(d, GiveBack(i));
    } else {
      s' := d;
    }
  }

  lemma {:induction false} RunRuns(s0: Sys, s: Sys, i: nat, o: nat -> Outcome, n: nat) returns (s': Sys)
    requires Moved(s0, s, i) && Idle(At(s, i)) && Honest(o) && n <= |s.locals[i].ready|
    ensures Moved(s0, s', i) && (At(s', i), s'.pool) == RunAll(At(s, i), s.pool, o, n)
  {
    hide SysInv, Inv, Runs, Dated, Linked, RunOne;
    if n == 0 {
      s' := s;
    } else {
      var m := RunRuns(s0, s, i, o, n - 1);
      var p := RunAll(At(s, i), s.pool, o, n - 1);
      ReadyApart(p.0, 0);
      s' := RunOneRuns(s0, m, i, o(n - 1));
    }
  }

  /** The environment's part of a tick of worker i: due entries, its own queue, and room to admit. */
  ghost predicate Offered(s: Sys, i: nat, ins: Inputs) {
    && i < |s.locals| && i < |s.queues| && Proper(At(s, i), ins)
    && ins.arrivals == s.queues[i] && multiset(ins.fired) <= s.locals[i].timer
    && (ins.admitted > 0 ==> |s.locals[i].table| + ins.admitted <= s.limit + 1)
  }

  /** Worker i and the pool are in s' as a tick from s leaves them. */
  ghost predicate Ticked(s: Sys, s': Sys, i: nat, ins: Inputs) {
    && i < |s.locals| && i < |s'.locals| && Proper(At(s, i), ins)
    && (At(s', i), s'.pool) == TickSpec(At(s, i), s.pool, ins)
  }

  /**
   * A tick refines the state machine: its timers, events, messages, admissions and
   * dispatches are steps of worker i, and they lead to exactly the state the tick ends in.
   */
  lemma TickIsARun(s: Sys, i: nat, ins: Inputs) returns (s': Sys)
    requires SysInv(s) && Free(s, i) && Offered(s, i, ins)
    ensures RunsTo(s, s') && SysInv(s') && Free(s', i) && Ticked(s, s', i, ins)
  {
    hide SysInv, Inv, Runs, Dated, Linked, FireAll, NotifyAll, AdmitAll, RunAll, Arriving, Honest, Admitted;
    var w := At(s, i);
    StillArriving(w, ins);
    var s1 := FireRuns(s, i, ins.fired);
    var s2 := NotifyRuns(s, s1, i, PollNotices(ins.polls));
    var s3 := NotifyRuns(s, s2, i, MessageNotices(ins.msgs));
    assert At(s3, i) == Delivered(w, ins);
    assert s3.locals[i].table == s.locals[i].table;
    var s4 := AdmitRuns(s, s3, i, ins.admitted);
    assert At(s4, i) == Gathered(w, ins);
    s' := RunRuns(s, s4, i, ins.o, |s4.locals[i].ready|);
  }
}
