/**
 * What one tick of a worker does for the tasks in its table: each is run exactly once
 * if an event reached it and not at all otherwise, sees the first events of its array in
 * the order timer, I/O, wakeup, and is left suspended with a live timer entry
 * (law_worker_tick and law_worker_dispatch in source/lawd/server.c).
 */
module NoLostWakeup {
  import opened Pigeonhole
  import opened Worker
  import opened Tick

  /** How a task record leaves a run that ended with o. */
  predicate RanAs(a: Task, b: Task, o: Outcome) {
    && b.runs == a.runs + 1 && b.version == (a.version + 1) % 0x1_0000_0000
    && b.id == a.id && b.life == a.life && !b.mark && b.events == []
    && match o
       case Wait(expiry, max) => b.mode.Suspended? && b.max == max && b.deadline == expiry && b.next == NIL
       case Return(value) => b.mode.Running? && b.max == 0
  }

  /** The tasks that finished in the first n runs, most recent first. */
  function Finished(ready: seq<nat>, o: nat -> Outcome, n: nat): seq<nat>
    requires n <= |ready|
  {
    if n == 0 then []
    else (if o(n - 1).Return? then [ready[n - 1]] else []) + Finished(ready, o, n - 1)
  }

  lemma RunOneEffect(s: State, pool: seq<nat>, o: Outcome, t: nat)
    requires Idle(s) && s.ready != [] && o != Return(SUSPENDED_SIGNAL) && t < |s.tasks|
    ensures var r := RunOne(s, pool, o).0;
            if t == s.ready[0] then RanAs(s.tasks[t], r.tasks[t], o) && (Resident(r, t) <==> o.Wait?)
            else r.tasks[t] == s.tasks[t] && (Resident(r, t) <==> Resident(s, t))
    ensures RunOne(s, pool, o).1 == (if o.Return? then [s.ready[0]] else []) + pool
    ensures forall e :: e in RunOne(s, pool, o).0.timer ==>
              e in s.timer || (o.Wait? && e == EntryOf(RunOne(s, pool, o).0.tasks[s.ready[0]]))
  {
    DispatchResidents(s, o);
    DispatchKeepsInv(s, o);
    if o.Return? { GiveKeepsInv(Dispatch(s, o), Head(pool)); }
  }

  lemma RunOneTimer(s: State, pool: seq<nat>, o: Outcome)
    requires Idle(s) && s.ready != [] && o != Return(SUSPENDED_SIGNAL) && s.ready[0] < |s.tasks|
    ensures var r := RunOne(s, pool, o).0;
            |r.tasks| == |s.tasks| &&
            r.timer == s.timer + if o.Wait? then multiset{EntryOf(r.tasks[s.ready[0]])} else multiset{}
  {
  }

  lemma ReadyApart(s: State, k: nat)
    requires Idle(s) && k < |s.ready|
    ensures s.ready[k] < |s.tasks|
    ensures forall j :: 0 <= j < |s.ready| && j != k ==> s.ready[j] != s.ready[k]
  {
  }

  lemma {:induction false} RunAllPool(s: State, pool: seq<nat>, o: nat -> Outcome, n: nat)
    requires Idle(s) && Honest(o) && n <= |s.ready|
    ensures RunAll(s, pool, o, n).1 == Finished(s.ready, o, n) + pool
  {
    hide Inv, RunOne;
    if n > 0 {
      RunAllPool(s, pool, o, n - 1);
      var p := RunAll(s, pool, o, n - 1);
      assert p.0.ready[0] == s.ready[n - 1];
      ReadyApart(s, n - 1);
      RunOneEffect(p.0, p.1, o(n - 1), s.ready[n - 1]);
    }
  }

  lemma {:induction false} RunAllSkips(s: State, pool: seq<nat>, o: nat -> Outcome, n: nat, t: nat)
    requires Idle(s) && Honest(o) && n <= |s.ready| && t < |s.tasks|
    requires forall k :: 0 <= k < n ==> s.ready[k] != t
    ensures RunAll(s, pool, o, n).0.tasks[t] == s.tasks[t]
    ensures Resident(RunAll(s, pool, o, n).0, t) <==> Resident(s, t)
  {
    hide Inv, RunOne;
    if n > 0 {
      RunAllSkips(s, pool, o, n - 1, t);
      var p := RunAll(s, pool, o, n - 1);
      assert p.0.ready[0] == s.ready[n - 1];
      RunOneEffect(p.0, p.1, o(n - 1), t);
    }
  }

  lemma {:induction false} RunAllRuns(s: State, pool: seq<nat>, o: nat -> Outcome, n: nat, k: nat)
    requires Idle(s) && Honest(o) && k < n <= |s.ready|
    ensures s.ready[k] < |s.tasks|
    ensures RanAs(s.tasks[s.ready[k]], RunAll(s, pool, o, n).0.tasks[s.ready[k]], o(k))
    ensures Resident(RunAll(s, pool, o, n).0, s.ready[k]) <==> o(k).Wait?
  {
    hide Inv, RunOne;
    ReadyApart(s, k);
    var t := s.ready[k];
    var p := RunAll(s, pool, o, n - 1);
    assert p.0.ready[0] == s.ready[n - 1];
    if k < n - 1 {
      RunAllRuns(s, pool, o, n - 1, k);
    } else {
      RunAllSkips(s, pool, o, k, t);
    }
    RunOneEffect(p.0, p.1, o(n - 1), t);
  }

  /** The timer entries of the waits that the first n runs ended in. */
  function WaitEntries(tasks: seq<Task>, ready: seq<nat>, o: nat -> Outcome, n: nat): multiset<Entry>
    requires n <= |ready| && forall k :: 0 <= k < n ==> ready[k] < |tasks|
  {
    if n == 0 then multiset{}
    else
      WaitEntries(tasks, ready, o, n - 1) + if o(n - 1).Wait? then multiset{EntryOf(tasks[ready[n - 1]])} else multiset{}
  }

  lemma {:induction false} SameWaits(a: seq<Task>, b: seq<Task>, ready: seq<nat>, o: nat -> Outcome, n: nat)
    requires n <= |ready| && forall k :: 0 <= k < n ==> ready[k] < |a| && ready[k] < |b| && a[ready[k]] == b[ready[k]]
    ensures WaitEntries(a, ready, o, n) == WaitEntries(b, ready, o, n)
  {
    if n > 0 { SameWaits(a, b, ready, o, n - 1); }
  }

  /** The dispatch loop takes nothing out of the timer and adds one entry for each wait its runs end in. */
  lemma {:induction false} RunAllTimer(s: State, pool: seq<nat>, o: nat -> Outcome, n: nat)
    requires Idle(s) && Honest(o) && n <= |s.ready|
    ensures forall k :: 0 <= k < n ==> s.ready[k] < |s.tasks|
    ensures var r := RunAll(s, pool, o, n).0; r.timer == s.timer + WaitEntries(r.tasks, s.ready, o, n)
  {
    hide Inv, RunOne, Distinct;
    forall k: nat | k < n ensures s.ready[k] < |s.tasks| { ReadyApart(s, k); }
    if n > 0 {
      RunAllTimer(s, pool, o, n - 1);
      var p, r := RunAll(s, pool, o, n - 1), RunAll(s, pool, o, n).0;
      assert p.0.ready[0] == s.ready[n - 1];
      RunOneTimer(p.0, p.1, o(n - 1));
      ReadyApart(s, n - 1);
      forall k: nat | k < n - 1 ensures p.0.tasks[s.ready[k]] == r.tasks[s.ready[k]] {
        RunOneEffect(p.0, p.1, o(n - 1), s.ready[k]);
      }
      SameWaits(p.0.tasks, r.tasks, s.ready, o, n - 1);
    }
  }

  // The whole tick -----------------------------------------------------------

  /** Between ticks nothing is ready and no event array holds anything. */
  ghost predicate AtRest(s: State) {
    Idle(s) && s.ready == [] && (forall t: nat :: Resident(s, t) ==> s.tasks[t].events == [])
  }

  /** Everything the environment decides in one tick. */
  datatype Inputs = Inputs(
    fired: seq<Entry>, polls: seq<Poll>, msgs: seq<Message>, arrivals: seq<nat>, admitted: nat, o: nat -> Outcome)

  ghost function Delivered(s: State, ins: Inputs): (r: State)
    requires Idle(s)
    ensures Idle(r) && SameCores(s, r)
  {
    var s1 := FireAll(s, ins.fired);
    var s2 := NotifyAll(s1, PollNotices(ins.polls));
    NotifyAll(s2, MessageNotices(ins.msgs))
  }

  ghost predicate Proper(s: State, ins: Inputs) {
    Idle(s) && ins.admitted <= |ins.arrivals| && Arriving(s, ins.arrivals[..ins.admitted]) && Honest(ins.o)
  }

  lemma StillArriving(s: State, ins: Inputs)
    requires Proper(s, ins)
    ensures Arriving(Delivered(s, ins), ins.arrivals[..ins.admitted])
  {
    var a := ins.arrivals[..ins.admitted];
    forall i | 0 <= i < |a| ensures !Resident(s, a[i]) {}
  }

  /** The state in which the dispatch loop starts. */
  ghost function Gathered(s: State, ins: Inputs): (r: State)
    requires Proper(s, ins)
    ensures Idle(r) && Admitted(Delivered(s, ins), r, ins.arrivals[..ins.admitted])
  {
    StillArriving(s, ins);
    AdmitAllKeeps(Delivered(s, ins), ins.arrivals, ins.admitted);
    AdmitAll(Delivered(s, ins), ins.arrivals, ins.admitted)
  }

  ghost function TickSpec(s: State, pool: seq<nat>, ins: Inputs): (r: (State, seq<nat>))
    requires Proper(s, ins)
    ensures Idle(r.0) && r.0.ready == []
  {
    var g := Gathered(s, ins);
    RunAll(g, pool, ins.o, |g.ready|)
  }

  /** The events of a tick addressed to task t, in the order timer, I/O, wakeup. */
  function Reaching(s: State, t: nat, ins: Inputs): seq<Event>
    requires t < |s.tasks|
  {
    Timeouts(s, t, ins.fired) + Addressed(s, t, PollNotices(ins.polls)) + Addressed(s, t, MessageNotices(ins.msgs))
  }

  /** How many of the fired entries carry the given version and an id with the same low 32 bits. */
  function TimeoutsFor(id: nat, version: nat, fired: seq<Entry>): nat {
    if fired == [] then 0
    else
      var e := fired[|fired| - 1];
      TimeoutsFor(id, version, fired[..|fired| - 1]) +
      if e.id % 0x1_0000_0000 == id % 0x1_0000_0000 && e.version == version then 1 else 0
  }

  /** A polled word's user data: its low byte as a signed one. */
  function UserData(word: nat): int { if word % 256 < 128 then word % 256 else word % 256 - 256 }

  /** The polled bits and user data of every word but zero whose id has the same low 32 bits, in order. */
  function IoFor(id: nat, polls: seq<Poll>): seq<Event> {
    if polls == [] then []
    else
      var p := polls[|polls| - 1];
      IoFor(id, polls[..|polls| - 1]) +
      if p.word != 0 && p.word / 256 % 0x1_0000_0000 == id % 0x1_0000_0000 then [Io(p.bits, UserData(p.word))] else []
  }

  /** How many of the messages are wakeups for an id with the same low 32 bits. */
  function WakesFor(id: nat, msgs: seq<Message>): nat {
    if msgs == [] then 0
    else
      var m := msgs[|msgs| - 1];
      WakesFor(id, msgs[..|msgs| - 1]) + if m.Wake? && m.id % 0x1_0000_0000 == id % 0x1_0000_0000 then 1 else 0
  }

  function Repeat(ev: Event, n: nat): seq<Event> { if n == 0 then [] else Repeat(ev, n - 1) + [ev] }

  /**
   * What reaches a task, read off the tick's inputs: a timeout for each fired entry of its id
   * and version, then its polled events in order, then a wakeup for each message to it.
   */
  lemma ReachingIs(s: State, t: nat, ins: Inputs)
    requires t < |s.tasks|
    ensures var id := s.tasks[t].id;
            Reaching(s, t, ins) ==
              Repeat(Timeout, TimeoutsFor(id, s.tasks[t].version, ins.fired))
              + IoFor(id, ins.polls) + Repeat(Wakeup, WakesFor(id, ins.msgs))
  {
    TimeoutsAre(s, t, ins.fired);
    PollsAre(s, t, ins.polls);
    WakesAre(s, t, ins.msgs);
  }

  lemma {:induction false} TimeoutsAre(s: State, t: nat, fired: seq<Entry>)
    requires t < |s.tasks|
    ensures Timeouts(s, t, fired) == Repeat(Timeout, TimeoutsFor(s.tasks[t].id, s.tasks[t].version, fired))
    decreases |fired|
  {
    if fired != [] { TimeoutsAre(s, t, fired[..|fired| - 1]); }
  }

  lemma AddressedCat(s: State, t: nat, a: seq<Notice>, b: seq<Notice>)
    requires t < |s.tasks| && |b| <= 1
    ensures Addressed(s, t, a + b) ==
            Addressed(s, t, a) + if b != [] && Key(b[0].id) == Key(s.tasks[t].id) then [b[0].ev] else []
  {
    if b == [] {
      assert a + b == a;
      assert Addressed(s, t, a) + [] == Addressed(s, t, a);
    } else {
      assert (a + b)[..|a|] == a;
    }
  }

  lemma {:induction false} PollsAre(s: State, t: nat, polls: seq<Poll>)
    requires t < |s.tasks|
    ensures Addressed(s, t, PollNotices(polls)) == IoFor(s.tasks[t].id, polls)
    decreases |polls|
  {
    if polls != [] {
      var n := |polls| - 1;
      PollsAre(s, t, polls[..n]);
      AddressedCat(s, t, PollNotices(polls[..n]), PollNotice(polls[n]));
    }
  }

  lemma {:induction false} WakesAre(s: State, t: nat, msgs: seq<Message>)
    requires t < |s.tasks|
    ensures Addressed(s, t, MessageNotices(msgs)) == Repeat(Wakeup, WakesFor(s.tasks[t].id, msgs))
    decreases |msgs|
  {
    if msgs != [] {
      var n := |msgs| - 1;
      WakesAre(s, t, msgs[..n]);
      AddressedCat(s, t, MessageNotices(msgs[..n]), MessageNotice(msgs[n]));
    }
  }

  lemma {:induction false} SameAddress(s: State, s': State, t: nat, notes: seq<Notice>)
    requires t < |s.tasks| && t < |s'.tasks| && Key(s.tasks[t].id) == Key(s'.tasks[t].id)
    ensures Addressed(s, t, notes) == Addressed(s', t, notes)
    decreases |notes|
  {
    if notes != [] { SameAddress(s, s', t, notes[..|notes| - 1]); }
  }

  lemma ClipIsPrefix(max: nat, evs: seq<Event>)
    ensures Clip(max, evs) <= evs && |Clip(max, evs)| == if |evs| <= max then |evs| else max
  {
  }

  lemma ClipTwice(max: nat, a: seq<Event>, b: seq<Event>)
    ensures Clip(max, Clip(max, a) + b) == Clip(max, a + b)
  {
  }

  /** Events received in the tick are the first max of those addressed to the task, in order. */
  lemma EventsDelivered(s: State, t: nat, ins: Inputs)
    requires AtRest(s) && Resident(s, t)
    ensures Resident(Delivered(s, ins), t)
    ensures var evs, all, max := Delivered(s, ins).tasks[t].events, Reaching(s, t, ins), s.tasks[t].max;
            evs == Clip(max, all) <= all && |evs| == if |all| <= max then |all| else max
    ensures t in Delivered(s, ins).ready <==> Reaching(s, t, ins) != []
    ensures Reaching(s, t, ins) == [] ==> Delivered(s, ins).tasks[t] == s.tasks[t]
  {
    var s1 := FireAll(s, ins.fired);
    var io, wk := PollNotices(ins.polls), MessageNotices(ins.msgs);
    var s2 := NotifyAll(s1, io);
    var s3 := NotifyAll(s2, wk);
    assert SameCore(s.tasks[t], s1.tasks[t]) && SameCore(s1.tasks[t], s2.tasks[t]) && SameCore(s2.tasks[t], s3.tasks[t]);
    FireAllDelivers(s, ins.fired, t);
    NotifyAllDelivers(s1, io, t);
    NotifyAllDelivers(s2, wk, t);
    SameAddress(s, s1, t, io);
    SameAddress(s, s2, t, wk);
    var a, b, c := Timeouts(s, t, ins.fired), Addressed(s, t, io), Addressed(s, t, wk);
    assert [] + a == a;
    ClipTwice(s.tasks[t].max, a, b);
    ClipTwice(s.tasks[t].max, a + b, c);
    ClipIsPrefix(s.tasks[t].max, a + b + c);
  }

  /** Who is on the ready list when the dispatch loop starts, and with what events. */
  lemma GatheredReady(s: State, t: nat, ins: Inputs)
    requires AtRest(s) && Proper(s, ins)
    ensures Resident(s, t) ==>
              var g := Gathered(s, ins);
              && Resident(g, t)
              && (t in g.ready <==> Reaching(s, t, ins) != [])
              && g.tasks[t].events == Clip(s.tasks[t].max, Reaching(s, t, ins))
              && g.tasks[t].runs == s.tasks[t].runs && g.tasks[t].version == s.tasks[t].version
              && (Reaching(s, t, ins) == [] ==> g.tasks[t] == s.tasks[t])
    ensures t in ins.arrivals[..ins.admitted] ==> Resident(Gathered(s, ins), t) && t in Gathered(s, ins).ready
  {
    var d, g, a := Delivered(s, ins), Gathered(s, ins), ins.arrivals[..ins.admitted];
    if Resident(s, t) {
      EventsDelivered(s, t, ins);
      assert SameCore(s.tasks[t], d.tasks[t]);
      assert t !in a;
      assert AdmittedTask(d.tasks[t], g.tasks[t], false);
    }
    AdmitAllResidents(d, ins.arrivals, ins.admitted, t) by { StillArriving(s, ins); }
  }

  /** No entry that was due at the time of the tick is left unpopped. */
  ghost predicate AllDueFired(s: State, fired: seq<Entry>, now: int) {
    forall e :: e in s.timer && e.expiry <= now ==> e in fired
  }

  lemma {:induction false} FiredMeansTimeout(s: State, t: nat, fired: seq<Entry>)
    requires t < |s.tasks| && EntryOf(s.tasks[t]) in fired
    ensures Timeouts(s, t, fired) != []
    decreases |fired|
  {
    var n := |fired| - 1;
    assert fired == fired[..n] + [fired[n]];
    if EntryOf(s.tasks[t]) in fired[..n] { FiredMeansTimeout(s, t, fired[..n]); }
  }

  /**
   * No lost wakeup.  A tick that starts at rest ends at rest, so every task in the table is
   * suspended, unmarked and has a timer entry for its current wait.
   */
  lemma EndsAtRest(s: State, pool: seq<nat>, ins: Inputs)
    requires AtRest(s) && Proper(s, ins)
    ensures AtRest(TickSpec(s, pool, ins).0)
    ensures forall t: nat :: Resident(TickSpec(s, pool, ins).0, t) ==>
              var r := TickSpec(s, pool, ins).0.tasks[t];
              r.mode.Suspended? && !r.mark && EntryOf(r) in TickSpec(s, pool, ins).0.timer
  {
    hide RunAll, FireAll, NotifyAll, AdmitAll, Linked, Distinct, Arriving, Indexed;
    var g, f := Gathered(s, ins), TickSpec(s, pool, ins).0;
    forall t: nat | Resident(f, t)
      ensures f.tasks[t].events == [] && f.tasks[t].mode.Suspended? && !f.tasks[t].mark && EntryOf(f.tasks[t]) in f.timer
    {
      assert Awakable(f, f.tasks[t]);
      if t in g.ready {
        var k :| 0 <= k < |g.ready| && g.ready[k] == t;
        RunAllRuns(g, pool, ins.o, |g.ready|, k);
      } else {
        RunAllSkips(g, pool, ins.o, |g.ready|, t);
        GatheredReady(s, t, ins);
        AdmitAllResidents(Delivered(s, ins), ins.arrivals, ins.admitted, t) by { StillArriving(s, ins); }
        assert SameCores(s, Delivered(s, ins));
      }
    }
  }

  /**
   * A task resident at the start runs exactly once if some event of the tick is addressed
   * to it, and otherwise keeps its record; when it runs it finds the first max of those
   * events in its array; and if its deadline has passed, it runs.
   */
  lemma RunsOnceIfReached(s: State, pool: seq<nat>, ins: Inputs, t: nat, now: int)
    requires AtRest(s) && Proper(s, ins) && Resident(s, t) && AllDueFired(s, ins.fired, now)
    ensures Gathered(s, ins).tasks[t].events == Clip(s.tasks[t].max, Reaching(s, t, ins))
    ensures var f := TickSpec(s, pool, ins).0.tasks[t];
            if Reaching(s, t, ins) == [] then f == s.tasks[t]
            else f.runs == s.tasks[t].runs + 1 && f.version == (s.tasks[t].version + 1) % VERSIONS
    ensures s.tasks[t].deadline <= now ==> Reaching(s, t, ins) != []
  {
    hide Delivered, RunAll, FireAll, NotifyAll, AdmitAll, Linked, Distinct, Arriving, Indexed, Admitted, Honest;
    var g := Gathered(s, ins);
    GatheredReady(s, t, ins);
    assert Awakable(s, s.tasks[t]) && !s.tasks[t].mark;
    if s.tasks[t].deadline <= now {
      FiredMeansTimeout(s, t, ins.fired);
    }
    if t in g.ready {
      var k :| 0 <= k < |g.ready| && g.ready[k] == t;
      RunAllRuns(g, pool, ins.o, |g.ready|, k);
    } else {
      RunAllSkips(g, pool, ins.o, |g.ready|, t);
    }
  }
}
