/**
 * What a delivered event says about its addressee: a timeout, that the task's own
 * deadline has passed, and an I/O event, that the task's present life registered it
 * (law_worker_tick in source/lawd/server.c).
 */
module Deliveries {
  import opened Worker
  import opened StaleTimers
  import opened Tick
  import opened NoLostWakeup
  import opened Server
  import opened IdleWorkers
  import Slots

  // Timeouts --------------------------------------------------------------------------------

  lemma {:induction false} TimeoutsAreDue(s: State, t: nat, fired: seq<Entry>, now: int)
    requires Inv(s) && Dated(s) && Resident(s, t)
    requires forall e :: e in fired ==> e in s.timer && e.expiry <= now && Recent(s.tasks[t], e)
    ensures Timeouts(s, t, fired) != [] ==> s.tasks[t].deadline <= now
    decreases |fired|
  {
    hide Inv, Dated, Near;
    if fired != [] {
      var n := |fired| - 1;
      assert fired == fired[..n] + [fired[n]];
      TimeoutsAreDue(s, t, fired[..n], now);
      if Hits(s, t, fired[n]) {
        HitsIsFires(s, t, fired[n]);
        TimerReachesOnlyItsWait(s, fired[n], t);
      }
    }
  }

  lemma HitsIsFires(s: State, t: nat, e: Entry)
    requires Inv(s) && Resident(s, t)
    ensures Indexed(s) && (Hits(s, t, e) <==> Lookup(s, e.id) == Some(t) && Fires(s, e))
  {
  }

  lemma {:induction false} OnlyTimersTimeOut(s: State, t: nat, polls: seq<Poll>, msgs: seq<Message>)
    requires t < |s.tasks|
    ensures Timeout !in Addressed(s, t, PollNotices(polls)) && Timeout !in Addressed(s, t, MessageNotices(msgs))
    decreases |polls| + |msgs|
  {
    if polls != [] {
      var n := |polls| - 1;
      OnlyTimersTimeOut(s, t, polls[..n], msgs);
      AddressedCat(s, t, PollNotices(polls[..n]), PollNotice(polls[n]));
    } else if msgs != [] {
      var n := |msgs| - 1;
      OnlyTimersTimeOut(s, t, polls, msgs[..n]);
      AddressedCat(s, t, MessageNotices(msgs[..n]), MessageNotice(msgs[n]));
    }
  }

  lemma {:induction false} TimeoutsOnly(s: State, t: nat, fired: seq<Entry>)
    requires t < |s.tasks|
    ensures forall ev :: ev in Timeouts(s, t, fired) ==> ev == Timeout
    decreases |fired|
  {
    if fired != [] { TimeoutsOnly(s, t, fired[..|fired| - 1]); }
  }

  /** What a tick at time now pops: entries of this worker that are due, and every one of them. */
  ghost predicate Due(s: State, fired: seq<Entry>, now: int) {
    && (forall e :: e in fired ==> e in s.timer && e.expiry <= now)
    && AllDueFired(s, fired, now)
  }

  lemma ResidentLife(s: Sys, i: nat, t: nat)
    requires SysInv(s) && i < |s.locals| && Resident(At(s, i), t)
    ensures Live(s, t) && s.tasks[t].life <= s.spawned
    ensures forall e :: e in s.locals[i].timer ==> e.life <= s.spawned
  {
    hide Inv, Dated, Linked, Modes, Limits, Phases;
    PlaceOf(s, t, InTable(i)) by { assert Lies(s, t, InTable(i)); }
  }

  /**
   * In every reachable state a tick of an idle worker gives a task in its table a timeout if
   * and only if the task's own deadline has passed and it asked for events at all, unless
   * an entry that is popped has been overtaken by 2^32 spawns or dispatches.
   */
  lemma TimeoutMeansDeadline(s: Sys, i: nat, t: nat, ins: Inputs, now: int)
    requires Reachable(s) && Free(s, i) && s.locals[i].ready == [] && Resident(At(s, i), t)
    requires Due(At(s, i), ins.fired, now) && forall e :: e in ins.fired ==> Recent(s.tasks[t], e)
    ensures Idle(At(s, i))
    ensures Timeout in Delivered(At(s, i), ins).tasks[t].events <==> s.tasks[t].deadline <= now && s.tasks[t].max > 0
  {
    hide Reachable, SysInv, Delivered, Dated, ReadyOk, Indexed;
    ReachableInv(s);
    var w := At(s, i);
    WorkerOk(s, i);
    IdleIsAtRest(s, i);
    EventsDelivered(w, t, ins);
    OnlyTimersTimeOut(w, t, ins.polls, ins.msgs);
    TimeoutsOnly(w, t, ins.fired);
    TimeoutsAreDue(w, t, ins.fired, now);
    var a := Timeouts(w, t, ins.fired);
    if w.tasks[t].deadline <= now {
      RestingIsArmed(w, t);
      FiredMeansTimeout(w, t, ins.fired);
      assert a[0] in a;
      assert Reaching(w, t, ins)[0] == a[0];
    }
  }

  lemma WorkerOk(s: Sys, i: nat)
    requires SysInv(s) && i < |s.locals|
    ensures Inv(At(s, i)) && Dated(At(s, i)) && Indexed(At(s, i))
  {
  }

  lemma RestingIsArmed(w: State, t: nat)
    requires AtRest(w) && Resident(w, t)
    ensures EntryOf(w.tasks[t]) in w.timer
  {
    assert Awakable(w, w.tasks[t]);
  }

  // I/O -------------------------------------------------------------------------------------

  /** law_ectl packs the id of the active task, here the one its life was given, with any user data. */
  lemma RegisteredWord(life: nat, data: int, bits: nat)
    requires -128 <= data < 128
    ensures var word := Slots.Pack(Slots.Slot(life % IDS, data));
            PollNotice(Poll(word, bits)) ==
              if life % IDS == 0 && data == 0 then [] else [Notice(life % IDS, Io(bits, data))]
  {
    hide Slots.Pack, Slots.Unpack;
    Slots.SlotBijection(Slots.Slot(life % IDS, data), 0);
  }

  /**
   * In every reachable state an event that carries the id of a life finds task t exactly
   * when t is in the worker's table and its life is congruent to that one modulo 2^32; so
   * within 2^32 spawns a recycled task never receives what a previous life registered.
   */
  lemma IoReachesOnlyItsLife(s: Sys, i: nat, life: nat, t: nat)
    requires Reachable(s) && i < |s.locals| && life <= s.spawned
    ensures var w := At(s, i);
            && (Lookup(w, life % IDS) == Some(t) <==> Resident(w, t) && w.tasks[t].life % KEYS == life % KEYS)
            && (Lookup(w, life % IDS) == Some(t) && s.spawned - life < KEYS && s.spawned - w.tasks[t].life < KEYS ==>
                  w.tasks[t].life == life)
  {
    hide Reachable, SysInv, Key, Dated, Inv, Lookup, Resident;
    ReachableInv(s);
    WorkerOk(s, i);
    Registered(At(s, i), life, t);
    if Resident(At(s, i), t) { ResidentLife(s, i, t); }
  }

  lemma Registered(w: State, life: nat, t: nat)
    requires Inv(w) && Dated(w)
    ensures Lookup(w, life % IDS) == Some(t) <==> Resident(w, t) && w.tasks[t].life % KEYS == life % KEYS
    ensures Lookup(w, life % IDS) == Some(t) && Near(w.tasks[t].life, life) ==> w.tasks[t].life == life
  {
    RegistrationReaches(w, life, t);
  }
}
