/**
 * Timers are never cancelled: an entry becomes stale when its task runs again or its
 * id is retired.  This module follows each entry's origin (the life and the wait that
 * inserted it) through every step and says exactly when an entry or an I/O event
 * reaches a task (source/lawd/server.c).
 */
module StaleTimers {
  import opened Modular
  import opened Worker

  /** An entry of this life is at most as recent as the task, and lags its version by the runs since. */
  predicate Lags(r: Task, e: Entry) {
    && e.wait <= r.runs
    && r.version == (e.version + (r.runs - e.wait)) % VERSIONS
    && (e.wait == r.runs ==> e == EntryOf(r))
  }

  predicate Numbered(r: Task) { r.version < VERSIONS && r.id == r.life % IDS }

  ghost predicate AllNumbered(s: State) { forall t: nat :: Resident(s, t) ==> Numbered(s.tasks[t]) }

  ghost predicate AllUnique(s: State) {
    forall e :: e in s.timer ==> s.timer[e] == 1 && e.version < VERSIONS && e.id == e.life % IDS
  }

  ghost predicate AllLag(s: State) {
    forall t: nat, e :: Resident(s, t) && e in s.timer && s.tasks[t].life == e.life ==> Lags(s.tasks[t], e)
  }

  ghost predicate Dated(s: State) { AllNumbered(s) && AllUnique(s) && AllLag(s) }

  lemma NotifyKeepsDated(s: State, t: nat, ev: Event)
    requires Dated(s) && t < |s.tasks|
    ensures Dated(Notify(s, t, ev))
  {
    var s' := Notify(s, t, ev);
    assert forall u: nat :: Resident(s', u) <==> Resident(s, u);
  }

  lemma TimerPopKeepsDated(s: State, e: Entry)
    requires Inv(s) && Dated(s)
    ensures Dated(TimerPop(s, e))
  {
    var s1 := s.(timer := s.timer - multiset{e});
    assert forall u: nat :: Resident(s1, u) <==> Resident(s, u);
    assert forall x :: x in s1.timer ==> x in s.timer && s1.timer[x] <= s.timer[x];
    if Fires(s, e) { NotifyKeepsDated(s1, Lookup(s, e.id).value, Timeout); }
  }

  lemma InsertKeepsDated(s: State)
    requires Inv(s) && Dated(s) && CanInsert(s)
    requires Numbered(s.tasks[s.hand.value])
    requires forall e :: e in s.timer ==> e.life != s.tasks[s.hand.value].life
    ensures Dated(Insert(s))
  {
  }

  lemma VersionStep(r: Task, r': Task, e: Entry)
    requires Lags(r, e) && r'.runs == r.runs + 1 && r'.version == (r.version + 1) % VERSIONS
    ensures Lags(r', e)
  {
  }

  /** No two residents share a life. */
  ghost predicate OneLife(s: State) {
    forall u: nat, v: nat :: Resident(s, u) && Resident(s, v) && s.tasks[u].life == s.tasks[v].life ==> u == v
  }

  lemma DispatchKeepsResidents(s: State, o: Outcome, u: nat)
    requires s.ready != [] && s.ready[0] < |s.tasks| && Resident(Dispatch(s, o), u)
    ensures Resident(s, u)
    ensures Dispatch(s, o).tasks[u].life == s.tasks[u].life && Dispatch(s, o).tasks[u].id == s.tasks[u].id
    ensures u != s.ready[0] ==> Dispatch(s, o).tasks[u] == s.tasks[u]
  {
  }

  lemma OldEntriesLag(s: State, o: Outcome, u: nat, e: Entry)
    requires AllLag(s) && s.ready != [] && s.ready[0] < |s.tasks|
    requires Resident(s, u) && e in s.timer && s.tasks[u].life == e.life
    ensures Lags(Dispatch(s, o).tasks[u], e)
  {
    assert Lags(s.tasks[u], e);
    if u == s.ready[0] { VersionStep(s.tasks[u], Dispatch(s, o).tasks[u], e); }
  }

  lemma DispatchKeepsLag(s: State, o: Outcome)
    requires AllLag(s) && OneLife(s) && s.ready != [] && Resident(s, s.ready[0])
    ensures AllLag(Dispatch(s, o))
  {
    var s' := Dispatch(s, o);
    forall u: nat, e | Resident(s', u) && e in s'.timer && s'.tasks[u].life == e.life
      ensures Lags(s'.tasks[u], e)
    {
      DispatchKeepsResidents(s, o, u);
      if e in s.timer { OldEntriesLag(s, o, u, e); }
    }
  }

  lemma DispatchKeepsUnique(s: State, o: Outcome)
    requires AllUnique(s) && AllLag(s) && s.ready != [] && Resident(s, s.ready[0])
    requires Numbered(s.tasks[s.ready[0]])
    ensures AllUnique(Dispatch(s, o))
  {
  }

  lemma DispatchKeepsDated(s: State, o: Outcome)
    requires Dated(s) && OneLife(s) && s.ready != [] && Resident(s, s.ready[0])
    ensures Dated(Dispatch(s, o))
  {
    DispatchKeepsLag(s, o);
    DispatchKeepsUnique(s, o);
    var s' := Dispatch(s, o);
    forall u: nat | Resident(s', u) ensures Numbered(s'.tasks[u]) { DispatchKeepsResidents(s, o, u); }
  }

  /** The key of a life's id is the life modulo 2^32, since 2^32 divides 2^56. */
  lemma KeyOfLife(life: nat)
    ensures Key(life % IDS) == life % KEYS == life % 0x1_0000_0000
    ensures IDS == 0x100_0000_0000_0000
  {
    assert life == IDS * (life / IDS) + life % IDS;
    assert IDS == KEYS * 0x100_0000;
    assert life == KEYS * (0x100_0000 * (life / IDS)) + life % IDS;
  }

  predicate Near(a: nat, b: nat) { a < b + KEYS && b < a + KEYS }

  /** Fewer than 2^32 spawns lie between the two lives; if they are one, so do fewer dispatches since the entry's wait. */
  predicate Recent(r: Task, e: Entry) { Near(r.life, e.life) && (r.life == e.life ==> r.runs - e.wait < VERSIONS) }

  /**
   * What a life registered reaches.  A timer entry or an I/O slot carries the id
   * life % 2^56; it finds task t exactly when t is resident and its life is congruent
   * modulo 2^32, so within 2^32 spawns it finds only the life that registered it.
   */
  lemma RegistrationReaches(s: State, life: nat, t: nat)
    requires Indexed(s) && AllNumbered(s)
    ensures Lookup(s, life % IDS) == Some(t) <==> Resident(s, t) && s.tasks[t].life % KEYS == life % KEYS
    ensures Lookup(s, life % IDS) == Some(t) && Near(s.tasks[t].life, life) ==> s.tasks[t].life == life
  {
    KeyOfLife(life);
    if Lookup(s, life % IDS) == Some(t) {
      assert Resident(s, t);
    }
    if Resident(s, t) {
      KeyOfLife(s.tasks[t].life);
      if s.tasks[t].life % KEYS == life % KEYS && Near(s.tasks[t].life, life) {
        ModUnique(s.tasks[t].life, life, KEYS);
      }
    }
  }

  lemma LagIsCurrent(r: Task, e: Entry)
    requires Lags(r, e) && e.version < VERSIONS
    ensures r.version == e.version <==> (r.runs - e.wait) % VERSIONS == 0
  {
    var d := r.runs - e.wait;
    assert d == VERSIONS * (d / VERSIONS) + d % VERSIONS;
    assert e.version + d == VERSIONS * (d / VERSIONS) + (e.version + d % VERSIONS);
  }

  /**
   * Stale timers are inert.  A popped entry of the life that task t is in reaches t
   * exactly when the number of dispatches since it was inserted is a multiple of 2^32;
   * so with fewer dispatches and fewer spawns than that, an entry reaches a task only
   * if it is the very entry of the wait the task is in.
   */
  lemma TimerReachesOnlyItsWait(s: State, e: Entry, t: nat)
    requires Inv(s) && Dated(s) && e in s.timer && Lookup(s, e.id) == Some(t)
    ensures s.tasks[t].life == e.life ==> (Fires(s, e) <==> (s.tasks[t].runs - e.wait) % 0x1_0000_0000 == 0)
    ensures Fires(s, e) && Recent(s.tasks[t], e) ==> e == EntryOf(s.tasks[t])
  {
    RegistrationReaches(s, e.life, t);
    if s.tasks[t].life == e.life {
      assert Lags(s.tasks[t], e);
      LagIsCurrent(s.tasks[t], e);
    }
  }

  /**
   * A dispatch keeps every resident awakable exactly when the callback did not return the
   * value that law_ewait yields with: that task is taken for a suspended one and left with
   * no timer entry to wake it.
   */
  lemma OnlySignalSixLosesATask(s: State, o: Outcome)
    requires Inv(s) && Dated(s) && s.hand.None? && s.ready != []
    ensures Inv(Dispatch(s, o)) <==> o != Return(6)
  {
    if o == Return(SUSPENDED_SIGNAL) {
      var t := s.ready[0];
      assert Resident(s, t) && Resident(Dispatch(s, o), t);
      assert AllLag(s);
    } else {
      DispatchKeepsInv(s, o);
    }
  }

  /**
   * What becomes of that task: no timer entry of its life fires for it within 2^32 runs,
   * and any other event addressed to its id is dropped but makes it ready, so that the next
   * dispatch resumes a coroutine that has returned.
   */
  lemma FinishedTaskIsResumed(s: State, ev: Event)
    requires Inv(s) && Dated(s) && s.hand.None? && s.ready != []
    ensures var t, d := s.ready[0], Dispatch(s, Return(SUSPENDED_SIGNAL));
            && Indexed(d) && Resident(d, t) && t !in d.ready && d.tasks[t].mode.Suspended?
            && d.tasks[t].max == 0 && d.tasks[t].events == [] && NotifyId(d, d.tasks[t].id, ev).tasks[t].events == []
            && t in NotifyId(d, d.tasks[t].id, ev).ready
            && forall e :: e in d.timer && e.life == d.tasks[t].life && d.tasks[t].runs - e.wait < VERSIONS ==>
                 e.version != d.tasks[t].version
  {
    var t, d := s.ready[0], Dispatch(s, Return(SUSPENDED_SIGNAL));
    assert Resident(s, t);
    forall e | e in d.timer && e.life == d.tasks[t].life && d.tasks[t].runs - e.wait < VERSIONS
      ensures e.version != d.tasks[t].version
    {
      assert Lags(s.tasks[t], e);
      VersionStep(s.tasks[t], d.tasks[t], e);
      LagIsCurrent(d.tasks[t], e);
    }
  }
}
