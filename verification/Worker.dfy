/**
 * Task records, the part of the scheduler state one worker owns, and the atomic
 * steps a worker takes on it (source/lawd/server.c).
 *
 * A task object is named by its index in the fixed array of tasks that the pool
 * allocates up front; NIL is the null pointer.  The fields life, runs and deadline
 * of a task, and life and wait of a timer entry, are history: no step reads them.
 */
module Worker {
  import opened Pigeonhole

  datatype Option<+T> = None | Some(value: T)

  const VERSIONS: nat := 0x1_0000_0000          // law_vers_t is uint32_t
  const KEYS: nat := 0x1_0000_0000              // the table compares keys as int
  const IDS: nat := 0x100_0000_0000_0000        // LAW_ID_MODULO
  const SUSPENDED_SIGNAL: int := 6              // LAW_MODE_SUSPENDED
  const NIL: int := -1

  datatype Mode = Created | Spawned | Running | Suspended

  datatype Event = Timeout | Io(bits: nat, data: int) | Wakeup

  datatype Task = Task(
    mode: Mode, mark: bool, max: nat, events: seq<Event>, version: nat, id: nat, next: int,
    life: nat, runs: nat, deadline: int)

  datatype Entry = Entry(expiry: int, id: nat, version: nat, life: nat, wait: nat)

  /** How one run of a task's coroutine ends: in law_ewait, or by returning from its callback. */
  datatype Outcome = Wait(expiry: int, max: nat) | Return(value: int)

  datatype State = State(
    tasks: seq<Task>, table: map<nat, nat>, ready: seq<nat>, timer: multiset<Entry>, hand: Option<nat>)

  function Key(id: nat): nat { id % KEYS }

  /** The timer entry that law_ewait inserts for the wait the task is in. */
  function EntryOf(r: Task): Entry { Entry(r.deadline, r.id, r.version, r.life, r.runs) }

  function Lookup(s: State, id: nat): Option<nat> {
    if Key(id) in s.table then Some(s.table[Key(id)]) else None
  }

  predicate Resident(s: State, t: nat) {
    t < |s.tasks| && Key(s.tasks[t].id) in s.table && s.table[Key(s.tasks[t].id)] == t
  }

  // Intrusive lists -------------------------------------------------------

  function Head(l: seq<nat>): int { if l == [] then NIL else l[0] }

  predicate LinkAt(tasks: seq<Task>, l: seq<nat>, i: nat) {
    i < |l| && l[i] < |tasks| && tasks[l[i]].next == Head(l[i + 1..])
  }

  /** The next fields of l's members chain them in order and end in NIL. */
  ghost predicate Linked(tasks: seq<Task>, l: seq<nat>) {
    && (forall i :: 0 <= i < |l| ==> l[i] < |tasks|)
    && (forall i: nat {:trigger LinkAt(tasks, l, i)} :: i < |l| ==> LinkAt(tasks, l, i))
  }

  /** Writing a task outside a list, or one of its fields other than next, keeps the list. */
  lemma LinkedFrame(tasks: seq<Task>, l: seq<nat>, t: nat, r: Task)
    requires Linked(tasks, l) && t < |tasks|
    requires t in l ==> r.next == tasks[t].next
    ensures Linked(tasks[t := r], l)
  {
    var ts := tasks[t := r];
    forall i: nat | i < |l| ensures LinkAt(ts, l, i) { assert LinkAt(tasks, l, i); }
  }

  lemma LinkedPush(tasks: seq<Task>, l: seq<nat>, t: nat, r: Task)
    requires Linked(tasks, l) && t < |tasks| && t !in l && r.next == Head(l)
    ensures Linked(tasks[t := r], [t] + l)
  {
    var m, ts := [t] + l, tasks[t := r];
    forall i: nat | i < |m| ensures LinkAt(ts, m, i) {
      assert m[i + 1..] == l[i..];
      if i > 0 { assert LinkAt(tasks, l, i - 1); }
    }
  }

  lemma LinkedPop(tasks: seq<Task>, l: seq<nat>, r: Task)
    requires Linked(tasks, l) && l != [] && Distinct(l)
    ensures tasks[l[0]].next == Head(l[1..])
    ensures Linked(tasks[l[0] := r], l[1..]) && Distinct(l[1..]) && l[0] !in l[1..]
  {
    var m, ts := l[1..], tasks[l[0] := r];
    assert LinkAt(tasks, l, 0);
    forall i: nat | i < |m| ensures LinkAt(ts, m, i) {
      assert LinkAt(tasks, l, i + 1);
      assert m[i] == l[i + 1] && m[i + 1..] == l[i + 2..];
    }
  }

  // Invariant -------------------------------------------------------------

  ghost predicate Indexed(s: State) {
    forall k :: k in s.table ==> s.table[k] < |s.tasks| && Key(s.tasks[s.table[k]].id) == k
  }

  ghost predicate ReadyOk(s: State) {
    && Distinct(s.ready)
    && Linked(s.tasks, s.ready)
    && (forall t: nat :: t in s.ready ==> Resident(s, t))
    && (forall t: nat :: Resident(s, t) ==> (s.tasks[t].mark <==> t in s.ready))
  }

  /** A resident task is ready to run, or is suspended with a live timer entry of its own. */
  predicate Awakable(s: State, r: Task) {
    && |r.events| <= r.max
    && (r.mode.Suspended? || (r.mode.Spawned? && r.mark))
    && (!r.mark ==> EntryOf(r) in s.timer)
  }

  ghost predicate Inv(s: State) {
    && Indexed(s)
    && ReadyOk(s)
    && (forall t: nat :: Resident(s, t) ==> Awakable(s, s.tasks[t]))
    && (s.hand.Some? ==>
          var t := s.hand.value;
          t < |s.tasks| && !Resident(s, t) && !s.tasks[t].mark)
  }

  // Steps -----------------------------------------------------------------

  /** law_task_push_event: a full event array drops the event. */
  function PushEvent(r: Task, ev: Event): Task {
    if |r.events| < r.max then r.(events := r.events + [ev]) else r
  }

  /** law_ready_set_push. */
  function ReadyPush(s: State, t: nat): State
    requires t < |s.tasks|
  {
    if s.tasks[t].mark then s
    else s.(tasks := s.tasks[t := s.tasks[t].(mark := true, next := Head(s.ready))], ready := [t] + s.ready)
  }

  /** Deliver an event to a resident task and mark it ready. */
  function Notify(s: State, t: nat, ev: Event): State
    requires t < |s.tasks|
  {
    ReadyPush(s.(tasks := s.tasks[t := PushEvent(s.tasks[t], ev)]), t)
  }

  function NotifyId(s: State, id: nat, ev: Event): State
    requires Indexed(s)
  {
    match Lookup(s, id)
    case None => s
    case Some(t) => Notify(s, t, ev)
  }

  /** Whether a popped timer entry reaches a task: its id is resident and its version current. */
  predicate Fires(s: State, e: Entry)
    requires Indexed(s)
  {
    Lookup(s, e.id).Some? && s.tasks[Lookup(s, e.id).value].version == e.version
  }

  function TimerPop(s: State, e: Entry): State
    requires Indexed(s)
  {
    var s1 := s.(timer := s.timer - multiset{e});
    if Fires(s, e) then Notify(s1, Lookup(s, e.id).value, Timeout) else s1
  }

  /** law_table_insert of the task taken from the incoming queue, then law_ready_set_push. */
  function Insert(s: State): State
    requires s.hand.Some? && s.hand.value < |s.tasks|
  {
    var t := s.hand.value;
    ReadyPush(s.(table := s.table[Key(s.tasks[t].id) := t], hand := None), t)
  }

  /** One round of law_worker_dispatch up to, and not including, the return to the pool. */
  function Dispatch(s: State, o: Outcome): State
    requires s.ready != [] && s.ready[0] < |s.tasks|
  {
    var t := s.ready[0];
    var r := s.tasks[t];
    var run := r.(mark := false, next := NIL, version := (r.version + 1) % VERSIONS, runs := r.runs + 1,
                  mode := Running, max := 0, events := []);
    match o
    case Wait(expiry, max) =>
      var w := run.(mode := Suspended, max := max, deadline := expiry);
      s.(tasks := s.tasks[t := w], ready := s.ready[1..], timer := s.timer + multiset{EntryOf(w)})
    case Return(value) =>
      if value == SUSPENDED_SIGNAL then
        s.(tasks := s.tasks[t := run.(mode := Suspended)], ready := s.ready[1..])
      else
        s.(tasks := s.tasks[t := run], ready := s.ready[1..], table := s.table - {Key(r.id)}, hand := Some(t))
  }

  /** law_task_pool_push as the worker sees it: the task leaves its hand, linked to the pool's head. */
  function Give(s: State, link: int): State
    requires s.hand.Some? && s.hand.value < |s.tasks|
  {
    var t := s.hand.value;
    s.(tasks := s.tasks[t := s.tasks[t].(next := link)], hand := None)
  }

  // Every step keeps the invariant ----------------------------------------

  lemma ReadyPushKeepsInv(s: State, t: nat)
    requires Indexed(s) && ReadyOk(s) && s.hand.None?
    requires Resident(s, t)
    requires s.tasks[t].mode.Suspended? || s.tasks[t].mode.Spawned?
    requires |s.tasks[t].events| <= s.tasks[t].max
    requires forall u: nat :: Resident(s, u) && u != t ==> Awakable(s, s.tasks[u])
    ensures Inv(ReadyPush(s, t))
    ensures forall u: nat :: Resident(ReadyPush(s, t), u) <==> Resident(s, u)
  {
    if !s.tasks[t].mark {
      var r := s.tasks[t].(mark := true, next := Head(s.ready));
      LinkedPush(s.tasks, s.ready, t, r);
      var s' := ReadyPush(s, t);
      forall u: nat | Resident(s', u) ensures Resident(s, u) {}
      forall u: nat | Resident(s, u) ensures Resident(s', u) {}
    }
  }

  lemma NotifyKeepsInv(s: State, t: nat, ev: Event)
    requires Indexed(s) && ReadyOk(s) && s.hand.None? && Resident(s, t)
    requires s.tasks[t].mode.Suspended? || s.tasks[t].mode.Spawned?
    requires |s.tasks[t].events| <= s.tasks[t].max
    requires forall u: nat :: Resident(s, u) && u != t ==> Awakable(s, s.tasks[u])
    ensures Inv(Notify(s, t, ev))
    ensures forall u: nat :: Resident(Notify(s, t, ev), u) <==> Resident(s, u)
  {
    var r := PushEvent(s.tasks[t], ev);
    var s1 := s.(tasks := s.tasks[t := r]);
    LinkedFrame(s.tasks, s.ready, t, r);
    assert forall u: nat :: Resident(s1, u) <==> Resident(s, u);
    ReadyPushKeepsInv(s1, t);
  }

  lemma NotifyIdKeepsInv(s: State, id: nat, ev: Event)
    requires Inv(s) && s.hand.None?
    ensures Inv(NotifyId(s, id, ev)) && NotifyId(s, id, ev).hand.None?
  {
    if Lookup(s, id).Some? {
      NotifyKeepsInv(s, Lookup(s, id).value, ev);
    }
  }

  lemma TimerPopKeepsInv(s: State, e: Entry)
    requires Inv(s) && s.hand.None?
    ensures Inv(TimerPop(s, e)) && TimerPop(s, e).hand.None?
  {
    var s1 := s.(timer := s.timer - multiset{e});
    assert forall u: nat :: Resident(s1, u) <==> Resident(s, u);
    forall u: nat | Resident(s, u) && (Fires(s, e) ==> u != Lookup(s, e.id).value)
      ensures Awakable(s1, s.tasks[u])
    {
      assert Lookup(s, s.tasks[u].id) == Some(u);
    }
    if Fires(s, e) {
      NotifyKeepsInv(s1, Lookup(s, e.id).value, Timeout);
    }
  }

  /** The table accepts the task in hand: no resident id has the same low 32 bits. */
  predicate CanInsert(s: State) {
    && s.hand.Some? && s.hand.value < |s.tasks|
    && s.tasks[s.hand.value].mode.Spawned?
    && Key(s.tasks[s.hand.value].id) !in s.table
  }

  lemma InsertKeepsInv(s: State)
    requires Inv(s) && CanInsert(s)
    requires |s.tasks[s.hand.value].events| <= s.tasks[s.hand.value].max
    ensures Inv(Insert(s)) && Insert(s).hand.None?
    ensures forall u: nat :: Resident(Insert(s), u) <==> Resident(s, u) || u == s.hand.value
  {
    var t := s.hand.value;
    var s1 := s.(table := s.table[Key(s.tasks[t].id) := t], hand := None);
    assert forall u: nat :: Resident(s1, u) <==> Resident(s, u) || u == t;
    assert t !in s.ready;
    ReadyPushKeepsInv(s1, t);
  }

  lemma DispatchResidents(s: State, o: Outcome)
    requires Indexed(s) && s.ready != [] && Resident(s, s.ready[0])
    requires o != Return(SUSPENDED_SIGNAL)
    ensures Indexed(Dispatch(s, o))
    ensures forall u: nat :: Resident(Dispatch(s, o), u) <==> Resident(s, u) && (o.Wait? || u != s.ready[0])
  {
  }

  lemma DispatchReady(s: State, o: Outcome)
    requires Indexed(s) && ReadyOk(s) && s.ready != [] && o != Return(SUSPENDED_SIGNAL)
    ensures ReadyOk(Dispatch(s, o)) && s.ready[0] !in s.ready[1..]
  {
    var t := s.ready[0];
    var s' := Dispatch(s, o);
    DispatchResidents(s, o);
    LinkedPop(s.tasks, s.ready, s'.tasks[t]);
    assert forall u: nat :: u in s.ready <==> u == t || u in s.ready[1..];
  }

  lemma DispatchKeepsInv(s: State, o: Outcome)
    requires Inv(s) && s.hand.None? && s.ready != []
    requires o != Return(SUSPENDED_SIGNAL)
    ensures Inv(Dispatch(s, o))
    ensures o.Wait? ==> Dispatch(s, o).hand.None?
    ensures o.Return? ==> Dispatch(s, o).hand == Some(s.ready[0])
  {
    var s' := Dispatch(s, o);
    DispatchResidents(s, o);
    DispatchReady(s, o);
    forall u: nat | Resident(s', u) ensures Awakable(s', s'.tasks[u]) {
      assert Awakable(s, s.tasks[u]);
    }
  }

  lemma GiveKeepsInv(s: State, link: int)
    requires Inv(s) && s.hand.Some?
    ensures Inv(Give(s, link)) && Give(s, link).hand.None?
    ensures forall u: nat :: Resident(Give(s, link), u) <==> Resident(s, u)
  {
    var t := s.hand.value;
    var s' := Give(s, link);
    LinkedFrame(s.tasks, s.ready, t, s.tasks[t].(next := link));
    assert forall u: nat :: Resident(s', u) <==> Resident(s, u);
  }
}
