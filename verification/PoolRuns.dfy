/**
 * Every run of the server moves each worker's four pools as a run of the pools by
 * themselves: admitting a task admits it there, its first dispatch enters, its return
 * leaves, and no other step touches them (source/lawd/http_server.c, source/lawd/server.c).
 */
module PoolRuns {
  import opened Pigeonhole
  import opened Sequences
  import opened Worker
  import opened StaleTimers
  import opened Server
  import Admission
  import ServerTheorems
  import opened ServerPools
  import P = HttpPools

  // What a step does to one worker's tasks ------------------------------------------------------

  /** By place: the tasks in worker i's table. */
  lemma ResidentsByPlace(s: Sys, i: nat)
    requires SysInv(s) && i < |s.locals|
    ensures Residents(s, i) == set t: nat | t < |s.loc| && s.loc[t] == InTable(i)
    ensures UnderWay(s, i) == set t: nat | t < |s.loc| && s.loc[t] == InTable(i) && !s.tasks[t].mode.Spawned?
  {
    hide Inv, Dated, Linked, Modes, Lives, Unheard, Limits, Phases, Resident;
    forall t: nat | t < |s.tasks| ensures Resident(At(s, i), t) <==> s.loc[t] == InTable(i) {
      assert Lies(s, t, InTable(i)) <==> s.loc[t] == InTable(i);
    }
  }

  /** The task that a step moves into or out of a table, or changes the mode of. */
  predicate Touches(a: Step, i: nat) { a == InsertTask(i) || (a.RunTask? && a.i == i) }

  lemma OtherSteps(s: Sys, a: Step, i: nat)
    requires SysInv(s) && Enabled(s, a) && SysInv(Apply(s, a)) && i < |s.locals| && !Touches(a, i)
    ensures |Apply(s, a).locals| == |s.locals|
    ensures Residents(Apply(s, a), i) == Residents(s, i) && UnderWay(Apply(s, a), i) == UnderWay(s, i)
  {
    hide LinkAt, ReadyOk, Awakable, Dated, Modes, Lives, Unheard, Limits, Resident, Residents, UnderWay;
    var s' := Apply(s, a);
    ResidentsByPlace(s, i);
    ResidentsByPlace(s', i);
    Movement(s, a, i);
  }

  /** Nothing comes into or leaves worker i's table, and its tasks keep their modes. */
  ghost predicate Undisturbed(s: Sys, s': Sys, i: nat) {
    && |s'.loc| == |s.loc| && |s'.tasks| == |s.tasks| && |s.loc| == |s.tasks|
    && forall t: nat :: t < |s.loc| ==>
         && (s'.loc[t] == InTable(i) <==> s.loc[t] == InTable(i))
         && (s.loc[t] == InTable(i) ==> s'.tasks[t].mode == s.tasks[t].mode)
  }

  lemma Movement(s: Sys, a: Step, i: nat)
    requires SysInv(s) && Enabled(s, a) && i < |s.locals| && !Touches(a, i)
    ensures Undisturbed(s, Apply(s, a), i)
  {
    hide SysInv, Apply, Undisturbed;
    match a
    case InsertTask(j) => OthersAdmit(s, a, i);
    case Take(j) => OthersAdmit(s, a, i);
    case RunTask(j, o) => OthersRun(s, a, i);
    case GiveBack(j) => OthersRun(s, a, i);
    case Fire(j, e) => Delivery(s, a, i);
    case Deliver(j, id, ev) => Delivery(s, a, i);
    case _ => Accepting(s, a, i);
  }

  lemma Accepting(s: Sys, a: Step, i: nat)
    requires SysInv(s) && Enabled(s, a) && i < |s.locals|
    requires !a.InsertTask? && !a.Take? && !a.RunTask? && !a.GiveBack? && !a.Fire? && !a.Deliver?
    ensures Undisturbed(s, Apply(s, a), i)
  {
    hide Inv, Dated, Linked, Modes, Lives, Unheard, Limits;
    if a.PoolPop? { PlaceOf(s, s.pool[0], InPool); }
    if a.SetUp? || a.Push? { PlaceOf(s, s.acc.t, InServer); }
  }

  lemma OthersAdmit(s: Sys, a: Step, i: nat)
    requires SysInv(s) && Enabled(s, a) && i < |s.locals| && !Touches(a, i) && (a.Take? || a.InsertTask?)
    ensures Undisturbed(s, Apply(s, a), i)
  {
    hide Inv, Dated, Linked, Modes, Lives, Unheard, Limits;
    if a.Take? {
      PlaceOf(s, s.queues[a.i][0], InQueue(a.i));
    } else {
      PlaceOf(s, s.locals[a.i].hand.value, InHand(a.i));
    }
  }

  lemma OthersRun(s: Sys, a: Step, i: nat)
    requires SysInv(s) && Enabled(s, a) && i < |s.locals| && !Touches(a, i) && (a.RunTask? || a.GiveBack?)
    ensures Undisturbed(s, Apply(s, a), i)
  {
    hide SysInv, Apply, Undisturbed;
    if a.RunTask? { OtherRuns(s, a.i, a.o, i); } else { OtherGives(s, a.i, i); }
  }

  lemma OtherRuns(s: Sys, j: nat, o: Outcome, i: nat)
    requires SysInv(s) && Enabled(s, RunTask(j, o)) && i < |s.locals| && j != i
    ensures Undisturbed(s, Apply(s, RunTask(j, o)), i)
  {
    hide Inv, Dated, Linked, Places, Modes, Lives, Unheard, Limits;
    Admission.ReadyPlaced(s, j);
  }

  lemma OtherGives(s: Sys, j: nat, i: nat)
    requires SysInv(s) && Enabled(s, GiveBack(j)) && i < |s.locals|
    ensures Undisturbed(s, Apply(s, GiveBack(j)), i)
  {
    hide Inv, Dated, Linked, Modes, Lives, Unheard, Limits;
    PlaceOf(s, s.locals[j].hand.value, InHand(j));
  }

  lemma Delivery(s: Sys, a: Step, i: nat)
    requires SysInv(s) && Enabled(s, a) && i < |s.locals| && (a.Fire? || a.Deliver?)
    ensures Undisturbed(s, Apply(s, a), i)
  {
    hide Inv, Dated, Linked, Places, Modes, Lives, Unheard, Limits;
  }

  lemma InsertMoves(s: Sys, i: nat)
    requires SysInv(s) && Enabled(s, InsertTask(i)) && SysInv(Apply(s, InsertTask(i)))
    ensures var s', t := Apply(s, InsertTask(i)), s.locals[i].hand.value;
            && t < |s.tasks| && t !in Residents(s, i) && |s.locals[i].table| <= s.limit
            && |s'.locals| == |s.locals|
            && Residents(s', i) == Residents(s, i) + {t} && UnderWay(s', i) == UnderWay(s, i)
  {
    hide LinkAt, Linked, Awakable, ReadyOk, Indexed, Dated, Modes, Lives, Unheard, Resident;
    var s', t := Apply(s, InsertTask(i)), s.locals[i].hand.value;
    PlaceOf(s, t, InHand(i)) by { assert Lies(s, t, InHand(i)); }
    ResidentsByPlace(s, i);
    ResidentsByPlace(s', i);
  }

  lemma RunMoves(s: Sys, i: nat, o: Outcome)
    requires SysInv(s) && Enabled(s, RunTask(i, o)) && SysInv(Apply(s, RunTask(i, o)))
    ensures var s', t := Apply(s, RunTask(i, o)), s.locals[i].ready[0];
            && t in Residents(s, i) && (t in UnderWay(s, i) <==> !s.tasks[t].mode.Spawned?)
            && |s'.locals| == |s.locals|
            && Residents(s', i) == (if o.Return? then Residents(s, i) - {t} else Residents(s, i))
            && UnderWay(s', i) == (if o.Return? then UnderWay(s, i) - {t} else UnderWay(s, i) + {t})
  {
    hide LinkAt, Linked, Awakable, Indexed, Dated, Modes, Lives, Unheard, Limits;
    var s', t := Apply(s, RunTask(i, o)), s.locals[i].ready[0];
    ReadyIsResident(s, i);
    PlaceOf(s, t, InTable(i)) by { assert Lies(s, t, InTable(i)); }
    ResidentsByPlace(s, i);
    ResidentsByPlace(s', i);
  }

  // The mirror image ----------------------------------------------------------------------------

  /** The pools in l are those of worker i: its residents, and its entries under way. */
  ghost predicate Coupled(s: Sys, i: nat, l: P.Local)
    requires i < |s.locals|
  {
    && P.Shaped(l) && !l.failed && l.total == |s.tasks| && l.limit == s.limit
    && l.residents == Residents(s, i)
    && Distinct(P.Tasks(l.held)) && Members(P.Tasks(l.held)) == UnderWay(s, i)
  }

  /** l follows from m in a run of the pools. */
  ghost predicate Follows(m: P.Local, l: P.Local) { exists ms :: P.After(m, ms) == Some(l) }

  lemma Stay(m: P.Local)
    ensures Follows(m, m)
  {
    assert P.After(m, []) == Some(m);
  }

  lemma MoveOn(m: P.Local, l: P.Local, a: P.Move)
    requires Follows(m, l) && P.Enabled(l, a)
    ensures Follows(m, P.Apply(l, a))
  {
    hide P.Enabled, P.Apply;
    var ms :| P.After(m, ms) == Some(l);
    P.AfterSnoc(m, ms, a);
  }

  lemma MembersIn(ts: seq<nat>, t: nat)
    ensures t in Members(ts) <==> t in ts
  {
  }

  /** A first dispatch enters: it fails when a pool is empty, and else takes one item of each. */
  lemma EnterMirrored(m: P.Local, l: P.Local, t: nat) returns (l': P.Local)
    requires Follows(m, l) && P.Shaped(l) && !l.failed && t in l.residents && t !in P.Tasks(l.held)
    requires Distinct(P.Tasks(l.held))
    ensures Follows(m, l') && P.Shaped(l') && l'.total == l.total && l'.limit == l.limit && l'.residents == l.residents
    ensures l'.failed || P.Tasks(l'.held) == P.Tasks(l.held) + [t]
    ensures l'.failed || (Distinct(P.Tasks(l'.held)) && Members(P.Tasks(l'.held)) == Members(P.Tasks(l.held)) + {t})
  {
    MoveOn(m, l, P.Enter(t));
    l' := P.Apply(l, P.Enter(t));
    if !l'.failed {
      P.ColumnSnoc(l.held, P.Holder(t, P.Fronts(l.free)), 0);
      MembersSnoc(P.Tasks(l.held), t);
    }
  }

  /** A return leaves, with the items it took. */
  lemma LeaveMirrored(m: P.Local, l: P.Local, t: nat) returns (l': P.Local)
    requires Follows(m, l) && P.Shaped(l) && !l.failed && t in P.Tasks(l.held) && Distinct(P.Tasks(l.held))
    ensures Follows(m, l') && P.Shaped(l') && !l'.failed && l'.total == l.total && l'.limit == l.limit
    ensures l'.residents == l.residents - {t}
    ensures Distinct(P.Tasks(l'.held)) && Members(P.Tasks(l'.held)) == Members(P.Tasks(l.held)) - {t}
  {
    var ts := P.Tasks(l.held);
    var k: nat :| k < |ts| && ts[k] == t;
    MoveOn(m, l, P.Leave(k));
    l' := P.Apply(l, P.Leave(k));
    assert P.Tasks(l'.held) == ts[..k] + ts[k + 1..];
    MembersWithout(ts, k);
    assert forall h :: h in l'.held ==> h in l.held;
  }

  lemma MembersWithout(ts: seq<nat>, k: nat)
    requires k < |ts| && Distinct(ts)
    ensures Distinct(ts[..k] + ts[k + 1..]) && Members(ts[..k] + ts[k + 1..]) == Members(ts) - {ts[k]}
  {
    var us := ts[..k] + ts[k + 1..];
    forall t ensures t in Members(us) <==> t in Members(ts) - {ts[k]} {
      MembersIn(us, t);
      MembersIn(ts, t);
    }
  }

  /** Each step of the server is some moves of the pools of worker i, or of none. */
  lemma StepMirrored(s: Sys, a: Step, i: nat, m: P.Local, l: P.Local) returns (l': P.Local)
    requires SysInv(s) && Enabled(s, a) && i < |s.locals| && Follows(m, l) && Coupled(s, i, l)
    ensures |Apply(s, a).locals| == |s.locals| && Follows(m, l') && (l'.failed || Coupled(Apply(s, a), i, l'))
  {
    hide SysInv, Enabled, Apply, Follows, Residents, UnderWay, P.Tasks;
    StepKeepsInv(s, a);
    SizesKept(s, a);
    if a == InsertTask(i) {
      l' := InsertMirrored(s, i, m, l);
    } else if a.RunTask? && a.i == i {
      l' := RunMirrored(s, i, a.o, m, l);
    } else {
      OtherSteps(s, a, i);
      l' := l;
    }
  }

  lemma SizesKept(s: Sys, a: Step)
    requires SysInv(s) && Enabled(s, a)
    ensures |Apply(s, a).tasks| == |s.tasks| && |Apply(s, a).locals| == |s.locals| && Apply(s, a).limit == s.limit
  {
    ServerTheorems.StepKeepsSizes(s, a);
  }

  lemma InsertMirrored(s: Sys, i: nat, m: P.Local, l: P.Local) returns (l': P.Local)
    requires SysInv(s) && Enabled(s, InsertTask(i)) && i < |s.locals| && Follows(m, l) && Coupled(s, i, l)
    requires SysInv(Apply(s, InsertTask(i))) && |Apply(s, InsertTask(i)).locals| == |s.locals|
    requires |Apply(s, InsertTask(i)).tasks| == |s.tasks| && Apply(s, InsertTask(i)).limit == s.limit
    ensures Follows(m, l') && Coupled(Apply(s, InsertTask(i)), i, l')
  {
    hide SysInv, Apply, Residents, UnderWay, Follows;
    InsertMoves(s, i);
    ResidentsCount(s, i);
    hide Enabled;
    var t := s.locals[i].hand.value;
    MoveOn(m, l, P.Admit(t));
    l' := P.Apply(l, P.Admit(t));
  }

  lemma RunMirrored(s: Sys, i: nat, o: Outcome, m: P.Local, l: P.Local) returns (l': P.Local)
    requires SysInv(s) && Enabled(s, RunTask(i, o)) && i < |s.locals| && Follows(m, l) && Coupled(s, i, l)
    requires SysInv(Apply(s, RunTask(i, o))) && |Apply(s, RunTask(i, o)).locals| == |s.locals|
    requires |Apply(s, RunTask(i, o)).tasks| == |s.tasks| && Apply(s, RunTask(i, o)).limit == s.limit
    ensures Follows(m, l') && (l'.failed || Coupled(Apply(s, RunTask(i, o)), i, l'))
  {
    hide SysInv, Apply, Residents, UnderWay, Follows, P.Tasks, Distinct, Members;
    RunMoves(s, i, o);
    hide Enabled;
    var t := s.locals[i].ready[0];
    MembersIn(P.Tasks(l.held), t);
    var e := l;
    if s.tasks[t].mode.Spawned? { e := EnterMirrored(m, l, t); }
    MembersIn(P.Tasks(e.held), t);
    l' := e;
    if !e.failed && o.Return? { l' := LeaveMirrored(m, e, t); }
  }

  // Runs ----------------------------------------------------------------------------------------

  /** The pools of one worker of a created server. */
  function Fresh(s0: Sys): P.Local { P.Init(s0.limit, |s0.tasks|, s0.limit) }

  lemma BeginMirrored(s0: Sys, workers: nat, i: nat)
    requires Init(s0, workers) && i < workers
    ensures i < |s0.locals| && Coupled(s0, i, Fresh(s0))
  {
  }

  /** Pools of worker i that have seen every step up to s, or an assertion that failed on the way. */
  ghost predicate Mirrored(s0: Sys, s: Sys, i: nat, l: P.Local) {
    i < |s.locals| && Follows(Fresh(s0), l) && (l.failed || Coupled(s, i, l))
  }

  /** In every run of the server, the pools of each worker go through a run of their own. */
  lemma {:induction false} RunsAreMirrored(s0: Sys, workers: nat, steps: seq<Step>, s: Sys, i: nat) returns (l: P.Local)
    requires Init(s0, workers) && Runs(s0, steps, s) && i < workers
    ensures Mirrored(s0, s, i, l)
    decreases |steps|
  {
    hide Init, SysInv, Enabled, Apply, Follows, Coupled, Fresh;
    if steps == [] {
      BeginMirrored(s0, workers, i);
      Stay(Fresh(s0));
      l := Fresh(s0);
    } else {
      var m :| Runs(s0, Front(steps), m) && Next(m, Last(steps), s);
      l := RunsAreMirrored(s0, workers, Front(steps), m, i);
      InitInv(s0, workers);
      RunKeepsInv(s0, Front(steps), m);
      SizesKept(m, Last(steps));
      if !l.failed { l := StepMirrored(m, Last(steps), i, Fresh(s0), l); }
    }
  }

  /** The assertion of law_hts_entry fails at a first dispatch exactly when the worker is dry. */
  lemma AssertionFailsExactlyWhenDry(s0: Sys, s: Sys, i: nat, l: P.Local)
    requires Mirrored(s0, s, i, l) && !l.failed && s.limit == s0.limit && SysInv(s)
    requires Free(s, i) && s.locals[i].ready != [] && s.locals[i].ready[0] < |s.tasks|
    requires s.tasks[s.locals[i].ready[0]].mode.Spawned?
    ensures var a := P.Enter(s.locals[i].ready[0]);
            P.Enabled(l, a) && (P.Apply(l, a).failed <==> Dry(s, i))
  {
    hide SysInv, Coupled, UnderWay, Follows, P.Apply, P.Enabled, P.Init;
    EntryIsNew(s, i, l);
    HeldIsUnderWay(s, i, l);
    EntryFails(s0.limit, |s0.tasks|, s0.limit, l, s.locals[i].ready[0]);
  }

  lemma EntryFails(w: nat, total: nat, limit: int, l: P.Local, t: nat)
    requires Follows(P.Init(w, total, limit), l) && P.Enabled(l, P.Enter(t))
    ensures P.Apply(l, P.Enter(t)).failed <==> |l.held| >= w
  {
    hide P.After, P.Enabled, P.Init;
    var ms :| P.After(P.Init(w, total, limit), ms) == Some(l);
    P.AssertionHoldsExactly(w, total, limit, ms, t);
  }

  lemma EntryIsNew(s: Sys, i: nat, l: P.Local)
    requires SysInv(s) && i < |s.locals| && Coupled(s, i, l) && s.locals[i].ready != []
    requires s.locals[i].ready[0] < |s.tasks| && s.tasks[s.locals[i].ready[0]].mode.Spawned?
    ensures P.Enabled(l, P.Enter(s.locals[i].ready[0]))
  {
    hide SysInv, P.Tasks, Distinct, Members, Resident;
    ReadyIsResident(s, i);
    MembersIn(P.Tasks(l.held), s.locals[i].ready[0]);
  }

  lemma HeldIsUnderWay(s: Sys, i: nat, l: P.Local)
    requires i < |s.locals| && Coupled(s, i, l)
    ensures |l.held| == |UnderWay(s, i)|
  {
    DistinctCount(P.Tasks(l.held));
  }
}
