/**
 * One tick of a worker as a composition of its atomic steps: timers, polled I/O events,
 * messages, admissions, and then a dispatch of everything that is ready
 * (law_worker_tick and law_worker_dispatch in source/lawd/server.c).
 */
module Tick {
  import opened Worker
  import Slots

  datatype Poll = Poll(word: nat, bits: nat)

  datatype Message = Shutdown | Wake(id: nat)

  /** An event addressed to a task id. */
  datatype Notice = Notice(id: nat, ev: Event)

  ghost predicate Idle(s: State) { Inv(s) && s.hand.None? }

  // Phases -----------------------------------------------------------------

  /** The part of a task that delivering events leaves alone. */
  predicate SameCore(a: Task, b: Task) {
    b == a.(mark := b.mark, next := b.next, events := b.events)
  }

  ghost predicate SameCores(s: State, s': State) {
    && s'.table == s.table && |s'.tasks| == |s.tasks|
    && (forall t: nat :: t < |s.tasks| ==> SameCore(s.tasks[t], s'.tasks[t]))
    && (forall t: nat :: t < |s.tasks| && !Resident(s, t) ==> s'.tasks[t] == s.tasks[t])
  }

  lemma NotifyIdCores(s: State, p: State, id: nat, ev: Event)
    requires Indexed(s) && Indexed(p) && SameCores(s, p)
    ensures SameCores(s, NotifyId(p, id, ev))
  {
    if Lookup(p, id).Some? {
      var u := Lookup(p, id).value;
      assert SameCore(s.tasks[u], p.tasks[u]);
      assert Resident(s, u);
    }
  }

  lemma TimerPopCores(s: State, p: State, e: Entry)
    requires Indexed(s) && Indexed(p) && SameCores(s, p)
    ensures SameCores(s, TimerPop(p, e))
  {
    if Fires(p, e) { NotifyIdCores(s, p.(timer := p.timer - multiset{e}), e.id, Timeout); }
  }

  /** Pop the given timer entries in order. */
  ghost function FireAll(s: State, fired: seq<Entry>): (r: State)
    requires Idle(s)
    ensures Idle(r) && SameCores(s, r)
    decreases |fired|
  {
    if fired == [] then s else
    var p := FireAll(s, fired[..|fired| - 1]);
    TimerPopKeepsInv(p, fired[|fired| - 1]);
    TimerPopCores(s, p, fired[|fired| - 1]);
    TimerPop(p, fired[|fired| - 1])
  }

  /** Deliver the given notices in order. */
  ghost function NotifyAll(s: State, notes: seq<Notice>): (r: State)
    requires Idle(s)
    ensures Idle(r) && SameCores(s, r) && r.timer == s.timer
    decreases |notes|
  {
    if notes == [] then s else
    var p := NotifyAll(s, notes[..|notes| - 1]);
    var n := notes[|notes| - 1];
    NotifyIdKeepsInv(p, n.id, n.ev);
    NotifyIdCores(s, p, n.id, n.ev);
    NotifyId(p, n.id, n.ev)
  }

  /** The zero word is the worker's own pipes; any other word is a task's slot. */
  function PollNotice(p: Poll): seq<Notice> {
    if p.word == 0 then []
    else [Notice(Slots.Unpack(p.word).id, Io(p.bits, Slots.Unpack(p.word).data))]
  }

  function MessageNotice(m: Message): seq<Notice> {
    match m case Shutdown => [] case Wake(id) => [Notice(id, Wakeup)]
  }

  function PollNotices(polls: seq<Poll>): seq<Notice> {
    if polls == [] then [] else PollNotices(polls[..|polls| - 1]) + PollNotice(polls[|polls| - 1])
  }

  function MessageNotices(msgs: seq<Message>): seq<Notice> {
    if msgs == [] then [] else MessageNotices(msgs[..|msgs| - 1]) + MessageNotice(msgs[|msgs| - 1])
  }

  /** Tasks read from the incoming queue can all be inserted: spawned, unmarked, with keys apart. */
  ghost predicate Arriving(s: State, ts: seq<nat>) {
    && (forall i :: 0 <= i < |ts| ==>
          && ts[i] < |s.tasks|
          && s.tasks[ts[i]].mode.Spawned? && !s.tasks[ts[i]].mark && s.tasks[ts[i]].events == []
          && Key(s.tasks[ts[i]].id) !in s.table)
    && (forall i, j :: 0 <= i < j < |ts| ==> Key(s.tasks[ts[i]].id) != Key(s.tasks[ts[j]].id))
  }

  lemma ArrivingPrefix(s: State, ts: seq<nat>, n: nat)
    requires n <= |ts| && Arriving(s, ts)
    ensures Arriving(s, ts[..n])
  {
  }

  /** How many of the waiting tasks a table of the given size takes in before it exceeds the limit. */
  function Admissible(size: nat, limit: nat, waiting: nat): nat {
    if size > limit then 0 else if waiting < limit + 1 - size then waiting else limit + 1 - size
  }

  function Admit(s: State, t: nat): State {
    if t < |s.tasks| then Insert(s.(hand := Some(t))) else s
  }

  function KeysOf(s: State, ts: seq<nat>): set<nat>
    requires forall i :: 0 <= i < |ts| ==> ts[i] < |s.tasks|
  {
    if ts == [] then {} else KeysOf(s, ts[..|ts| - 1]) + {Key(s.tasks[ts[|ts| - 1]].id)}
  }

  predicate AdmittedTask(a: Task, b: Task, admitted: bool) {
    b == if admitted then a.(mark := true, next := b.next) else a
  }

  /** What admitting ts does to everything but the order of the ready list. */
  ghost predicate Admitted(s: State, r: State, ts: seq<nat>) {
    && |r.tasks| == |s.tasks| && r.timer == s.timer
    && (forall i :: 0 <= i < |ts| ==> ts[i] < |s.tasks|)
    && (forall t: nat :: t < |s.tasks| ==> AdmittedTask(s.tasks[t], r.tasks[t], t in ts))
    && r.table.Keys == s.table.Keys + KeysOf(s, ts)
    && |r.table| == |s.table| + |ts|
  }

  predicate AdmitsTo(p: State, t: nat, r: State)
    requires t < |p.tasks|
  {
    && r.table == p.table[Key(p.tasks[t].id) := t] && r.timer == p.timer
    && r.tasks == p.tasks[t := p.tasks[t].(mark := true, next := Head(p.ready))]
  }

  lemma AdmitOne(s: State, t: nat)
    requires Idle(s) && t < |s.tasks| && Arriving(s, [t])
    ensures Idle(Admit(s, t)) && AdmitsTo(s, t, Admit(s, t))
  {
    assert [t][0] == t;
    var h := s.(hand := Some(t));
    assert forall u: nat :: Resident(h, u) <==> Resident(s, u);
    InsertKeepsInv(h);
  }

  lemma {:induction false} KeysApart(s: State, ts: seq<nat>, m: nat, k: nat)
    requires m <= |ts| && (forall i :: 0 <= i < |ts| ==> ts[i] < |s.tasks|)
    requires forall i :: 0 <= i < m ==> Key(s.tasks[ts[i]].id) != k
    ensures k !in KeysOf(s, ts[..m])
  {
    if m != 0 {
      KeysApart(s, ts, m - 1, k);
      assert ts[..m][..m - 1] == ts[..m - 1];
    }
  }

  lemma NextArrives(s: State, p: State, ts: seq<nat>, n: nat)
    requires n < |ts| && Arriving(s, ts[..n + 1]) && Admitted(s, p, ts[..n])
    ensures ts[n] < |p.tasks| && ts[n] !in ts[..n] && Key(p.tasks[ts[n]].id) !in p.table && Arriving(p, [ts[n]])
  {
    var a := ts[..n + 1];
    assert a[n] == ts[n] && a[..n] == ts[..n];
    assert ts[n] !in ts[..n];
    KeysApart(s, a, n, Key(s.tasks[ts[n]].id));
  }

  lemma AdmitStepTasks(s: State, p: State, r: State, a: seq<nat>, t: nat)
    requires Admitted(s, p, a) && t < |p.tasks| && t !in a && AdmitsTo(p, t, r)
    ensures forall u: nat :: u < |s.tasks| ==> AdmittedTask(s.tasks[u], r.tasks[u], u in a + [t])
  {
  }

  lemma KeysSnoc(s: State, a: seq<nat>, t: nat)
    requires (forall i :: 0 <= i < |a| ==> a[i] < |s.tasks|) && t < |s.tasks|
    ensures (forall i :: 0 <= i < |a + [t]| ==> (a + [t])[i] < |s.tasks|)
    ensures KeysOf(s, a + [t]) == KeysOf(s, a) + {Key(s.tasks[t].id)}
  {
  }

  lemma AdmitStep(s: State, p: State, r: State, a: seq<nat>, t: nat)
    requires Admitted(s, p, a) && t < |p.tasks| && t !in a
    requires Key(p.tasks[t].id) !in p.table && AdmitsTo(p, t, r)
    ensures Admitted(s, r, a + [t])
  {
    hide Key, KeysOf;
    AdmitStepTasks(s, p, r, a, t);
    KeysSnoc(s, a, t);
    assert AdmittedTask(s.tasks[t], p.tasks[t], t in a);
    hide AdmittedTask;
    GrowMap(p.table, Key(p.tasks[t].id), t);
  }

  lemma GrowMap(m: map<nat, nat>, k: nat, v: nat)
    requires k !in m
    ensures m[k := v].Keys == m.Keys + {k} && |m[k := v]| == |m| + 1
  {
  }

  lemma AdmitNext(s: State, p: State, ts: seq<nat>, n: nat)
    requires n < |ts| && Arriving(s, ts[..n + 1]) && Admitted(s, p, ts[..n]) && Idle(p)
    ensures ts[n] < |p.tasks| && Idle(Admit(p, ts[n])) && Admitted(s, Admit(p, ts[n]), ts[..n + 1])
  {
    hide Inv, Admit, AdmitsTo, Admitted, Arriving, Key;
    NextArrives(s, p, ts, n);
    AdmitOne(p, ts[n]);
    AdmitStep(s, p, Admit(p, ts[n]), ts[..n], ts[n]);
    assert ts[..n + 1] == ts[..n] + [ts[n]];
  }

  /** Admit the first n arrivals. */
  function AdmitAll(s: State, ts: seq<nat>, n: nat): State
    requires n <= |ts|
  {
    if n == 0 then s else Admit(AdmitAll(s, ts, n - 1), ts[n - 1])
  }

  lemma AdmittedNone(s: State, ts: seq<nat>)
    ensures Admitted(s, s, ts[..0])
  {
  }

  lemma {:induction false} AdmitAllKeeps(s: State, ts: seq<nat>, n: nat)
    requires Idle(s) && n <= |ts| && Arriving(s, ts[..n])
    ensures Idle(AdmitAll(s, ts, n)) && Admitted(s, AdmitAll(s, ts, n), ts[..n])
  {
    hide Inv, Arriving, Admit, Admitted;
    if n == 0 {
      AdmittedNone(s, ts);
    } else {
      assert ts[..n][..n - 1] == ts[..n - 1];
      ArrivingPrefix(s, ts[..n], n - 1);
      AdmitAllKeeps(s, ts, n - 1);
      AdmitNext(s, AdmitAll(s, ts, n - 1), ts, n - 1);
    }
  }

  lemma AdmitOneResidents(s: State, t: nat, u: nat)
    requires Idle(s) && t < |s.tasks| && Arriving(s, [t])
    ensures Resident(Admit(s, t), u) <==> Resident(s, u) || u == t
    ensures u in Admit(s, t).ready <==> u in s.ready || u == t
  {
    assert [t][0] == t;
    assert s.table[Key(s.tasks[t].id) := t][Key(s.tasks[t].id)] == t;
  }

  lemma AdmitNextResidents(s: State, p: State, ts: seq<nat>, n: nat, u: nat)
    requires n < |ts| && Arriving(s, ts[..n + 1]) && Admitted(s, p, ts[..n]) && Idle(p)
    ensures Resident(Admit(p, ts[n]), u) <==> Resident(p, u) || u == ts[n]
    ensures u in Admit(p, ts[n]).ready <==> u in p.ready || u == ts[n]
  {
    NextArrives(s, p, ts, n);
    AdmitOneResidents(p, ts[n], u);
  }

  lemma {:induction false} AdmitAllResidents(s: State, ts: seq<nat>, n: nat, u: nat)
    requires Idle(s) && n <= |ts| && Arriving(s, ts[..n])
    ensures Resident(AdmitAll(s, ts, n), u) <==> Resident(s, u) || u in ts[..n]
    ensures u in AdmitAll(s, ts, n).ready <==> u in s.ready || u in ts[..n]
  {
    hide Inv, Arriving, Admitted, Admit, Resident;
    if n > 0 {
      var p := AdmitAll(s, ts, n - 1);
      assert ts[..n][..n - 1] == ts[..n - 1];
      ArrivingPrefix(s, ts[..n], n - 1);
      AdmitAllResidents(s, ts, n - 1, u);
      assert AdmitAll(s, ts, n) == Admit(p, ts[n - 1]);
      assert Idle(p) && Admitted(s, p, ts[..n - 1]) by { AdmitAllKeeps(s, ts, n - 1); }
      AdmitNextResidents(s, p, ts, n - 1, u);
      assert ts[..n] == ts[..n - 1] + [ts[n - 1]];
    }
  }

  /** The admitted tasks are in front of the ready list, the last one first. */
  lemma {:induction false} AdmitAllReady(s: State, ts: seq<nat>, n: nat)
    requires Idle(s) && n <= |ts| && Arriving(s, ts[..n])
    ensures var r := AdmitAll(s, ts, n).ready;
            |r| == n + |s.ready| && r[n..] == s.ready && forall i :: 0 <= i < n ==> r[i] == ts[n - 1 - i]
  {
    hide Inv, Arriving, Admitted, Admit;
    if n > 0 {
      var p := AdmitAll(s, ts, n - 1);
      assert ts[..n][..n - 1] == ts[..n - 1];
      ArrivingPrefix(s, ts[..n], n - 1);
      AdmitAllReady(s, ts, n - 1);
      AdmitAllKeeps(s, ts, n - 1);
      NextArrives(s, p, ts, n - 1);
      AdmitOneReady(p, ts[n - 1]);
    }
  }

  lemma AdmitOneReady(s: State, t: nat)
    requires Idle(s) && t < |s.tasks| && Arriving(s, [t])
    ensures Admit(s, t).ready == [t] + s.ready
  {
    assert [t][0] == t;
  }

  /** Dispatch the head of the ready list and return its task to the pool if it finished. */
  function RunOne(s: State, pool: seq<nat>, o: Outcome): (State, seq<nat>)
    requires s.ready != [] && s.ready[0] < |s.tasks|
  {
    var d := Dispatch(s, o);
    if o.Return? && o.value != SUSPENDED_SIGNAL then (Give(d, Head(pool)), [s.ready[0]] + pool) else (d, pool)
  }

  /** Callbacks never return the value a yield signals with. */
  ghost predicate Honest(o: nat -> Outcome) { forall k :: o(k) != Return(SUSPENDED_SIGNAL) }

  lemma RunOneKeepsIdle(s: State, pool: seq<nat>, o: Outcome)
    requires Idle(s) && s.ready != [] && o != Return(SUSPENDED_SIGNAL)
    ensures Idle(RunOne(s, pool, o).0)
  {
    DispatchKeepsInv(s, o);
    if o.Return? { GiveKeepsInv(Dispatch(s, o), Head(pool)); }
  }

  /** The first n runs of a dispatch loop; o(k) says how the k-th run ends. */
  ghost function RunAll(s: State, pool: seq<nat>, o: nat -> Outcome, n: nat): (r: (State, seq<nat>))
    requires Idle(s) && Honest(o) && n <= |s.ready|
    ensures Idle(r.0) && r.0.ready == s.ready[n..] && |r.0.tasks| == |s.tasks|
  {
    if n == 0 then (s, pool) else
    var p := RunAll(s, pool, o, n - 1);
    RunOneKeepsIdle(p.0, p.1, o(n - 1));
    RunOne(p.0, p.1, o(n - 1))
  }

  // What a tick delivers ----------------------------------------------------

  /** The events array keeps the first max events. */
  function Clip(max: nat, evs: seq<Event>): seq<Event> { if |evs| <= max then evs else evs[..max] }

  predicate Hits(s: State, t: nat, e: Entry)
    requires t < |s.tasks|
  {
    Key(e.id) == Key(s.tasks[t].id) && e.version == s.tasks[t].version
  }

  function Timeouts(s: State, t: nat, fired: seq<Entry>): seq<Event>
    requires t < |s.tasks|
  {
    if fired == [] then []
    else Timeouts(s, t, fired[..|fired| - 1]) + if Hits(s, t, fired[|fired| - 1]) then [Timeout] else []
  }

  function Addressed(s: State, t: nat, notes: seq<Notice>): seq<Event>
    requires t < |s.tasks|
  {
    if notes == [] then []
    else
      var n := notes[|notes| - 1];
      Addressed(s, t, notes[..|notes| - 1]) + if Key(n.id) == Key(s.tasks[t].id) then [n.ev] else []
  }

  /** Task t of s' holds what it held in s and then evs, and was marked if evs is not empty. */
  predicate Received(s: State, s': State, t: nat, evs: seq<Event>)
    requires t < |s.tasks| && t < |s'.tasks|
  {
    && s'.tasks[t].events == Clip(s.tasks[t].max, s.tasks[t].events + evs)
    && (s'.tasks[t].mark <==> s.tasks[t].mark || evs != [])
    && (evs == [] ==> s'.tasks[t] == s.tasks[t])
  }

  lemma NotifyDelivers(s: State, p: State, u: nat, ev: Event, t: nat, evs: seq<Event>)
    requires SameCores(s, p) && Resident(s, u) && t < |s.tasks| && Received(s, p, t, evs)
    ensures Received(s, Notify(p, u, ev), t, if u == t then evs + [ev] else evs)
  {
  }

  lemma TimerPopDelivers(s: State, p: State, e: Entry, t: nat, evs: seq<Event>)
    requires Indexed(s) && Indexed(p) && SameCores(s, p) && Resident(s, t) && Received(s, p, t, evs)
    ensures Received(s, TimerPop(p, e), t, evs + if Hits(s, t, e) then [Timeout] else [])
  {
    var p1 := p.(timer := p.timer - multiset{e});
    assert SameCore(s.tasks[t], p.tasks[t]);
    assert Hits(s, t, e) <==> Fires(p, e) && Lookup(p, e.id).value == t;
    if Fires(p, e) {
      assert SameCore(s.tasks[Lookup(p, e.id).value], p.tasks[Lookup(p, e.id).value]);
      NotifyDelivers(s, p1, Lookup(p, e.id).value, Timeout, t, evs);
    }
    assert evs + [] == evs;
  }

  lemma PopRest(t: multiset<Entry>, a: seq<Entry>, e: Entry)
    ensures (t - multiset(a)) - multiset{e} == t - multiset(a + [e])
  {
  }

  lemma TimerPopTimer(s: State, e: Entry)
    requires Indexed(s)
    ensures TimerPop(s, e).timer == s.timer - multiset{e}
  {
  }

  lemma {:induction false} FireAllTimer(s: State, fired: seq<Entry>)
    requires Idle(s)
    ensures FireAll(s, fired).timer == s.timer - multiset(fired)
    decreases |fired|
  {
    if fired != [] {
      var n := |fired| - 1;
      FireAllTimer(s, fired[..n]);
      assert fired == fired[..n] + [fired[n]];
      PopRest(s.timer, fired[..n], fired[n]);
      TimerPopTimer(FireAll(s, fired[..n]), fired[n]);
    }
  }

  lemma {:induction false} FireAllDelivers(s: State, fired: seq<Entry>, t: nat)
    requires Idle(s) && Resident(s, t)
    ensures Received(s, FireAll(s, fired), t, Timeouts(s, t, fired))
    decreases |fired|
  {
    if fired == [] {
      assert s.tasks[t].events + [] == s.tasks[t].events;
    } else {
      var n := |fired| - 1;
      FireAllDelivers(s, fired[..n], t);
      TimerPopDelivers(s, FireAll(s, fired[..n]), fired[n], t, Timeouts(s, t, fired[..n]));
    }
  }

  lemma NotifyIdDelivers(s: State, p: State, n: Notice, t: nat, evs: seq<Event>)
    requires Indexed(s) && Indexed(p) && SameCores(s, p) && Resident(s, t) && Received(s, p, t, evs)
    ensures Received(s, NotifyId(p, n.id, n.ev), t, evs + if Key(n.id) == Key(s.tasks[t].id) then [n.ev] else [])
  {
    assert SameCore(s.tasks[t], p.tasks[t]);
    var l := Lookup(p, n.id);
    assert Key(n.id) == Key(s.tasks[t].id) <==> l == Some(t);
    if l.Some? {
      assert SameCore(s.tasks[l.value], p.tasks[l.value]);
      NotifyDelivers(s, p, l.value, n.ev, t, evs);
    }
    assert evs + [] == evs;
  }

  lemma {:induction false} NotifyAllDelivers(s: State, notes: seq<Notice>, t: nat)
    requires Idle(s) && Resident(s, t)
    ensures Received(s, NotifyAll(s, notes), t, Addressed(s, t, notes))
    decreases |notes|
  {
    if notes == [] {
      assert s.tasks[t].events + [] == s.tasks[t].events;
    } else {
      var k := |notes| - 1;
      NotifyAllDelivers(s, notes[..k], t);
      NotifyIdDelivers(s, NotifyAll(s, notes[..k]), notes[k], t, Addressed(s, t, notes[..k]));
    }
  }
}
