/**
 * The worker's tick and the shared task pool as the program performs them: in-place
 * updates of the task array, intrusive lists through the tasks' next fields, and the
 * loops of law_worker_tick and law_worker_dispatch (source/lawd/server.c).
 */
module WorkerThread {
  import opened Pigeonhole
  import opened Worker
  import opened Tick
  import opened NoLostWakeup
  import Slots

  lemma LinkedSame(tasks: seq<Task>, tasks': seq<Task>, l: seq<nat>)
    requires Linked(tasks, l) && |tasks'| == |tasks|
    requires forall i :: 0 <= i < |l| ==> tasks'[l[i]] == tasks[l[i]]
    ensures Linked(tasks', l)
  {
    forall i: nat | i < |l| ensures LinkAt(tasks', l, i) { assert LinkAt(tasks, l, i); }
  }

  /** law_task_pool_t: a free list through the next fields, and its mutex. */
  class TaskPool {
    const tasks: array<Task>
    const capacity: nat
    var head: int
    var size: nat
    var locked: bool
    ghost var list: seq<nat>

    ghost predicate Valid()
      reads this, tasks
    {
      !locked && size == |list| && head == Head(list) && Distinct(list) && Linked(tasks[..], list)
    }

    /** law_task_pool_create: every task is created and pushed, in order. */
    constructor (tasks: array<Task>)
      requires forall t :: 0 <= t < tasks.Length ==> !tasks[t].mark
      modifies tasks
      ensures Valid() && this.tasks == tasks && capacity == tasks.Length && size == capacity
      ensures forall t: nat :: t in list <==> t < tasks.Length
      ensures |list| == tasks.Length && forall i :: 0 <= i < |list| ==> list[i] == tasks.Length - 1 - i
      ensures forall t :: 0 <= t < tasks.Length ==> tasks[t].(next := NIL) == old(tasks[t]).(next := NIL)
    {
      this.tasks, capacity := tasks, tasks.Length;
      head, size, locked, list := NIL, 0, false, [];
      new;
      var n := 0;
      while n < tasks.Length
        invariant 0 <= n <= tasks.Length && size == n && Valid()
        invariant forall t: nat :: t in list <==> t < n
        invariant |list| == n && forall i :: 0 <= i < n ==> list[i] == n - 1 - i
        invariant forall t :: 0 <= t < tasks.Length ==> tasks[t].(next := NIL) == old(tasks[t]).(next := NIL)
      {
        Push(n);
        n := n + 1;
      }
    }

    /** law_task_pool_push. */
    method Push(t: nat)
      requires Valid() && t < tasks.Length && t !in list
      modifies this, tasks
      ensures Valid() && list == [t] + old(list)
      ensures tasks[..] == old(tasks[..])[t := old(tasks[t]).(next := Head(old(list)))]
    {
      LinkedPush(tasks[..], list, t, tasks[t].(next := head));
      tasks[t] := tasks[t].(next := head);
      head := t;
      list := [t] + list;
      size := size + 1;
    }

    /** law_task_pool_pop: on an empty list it returns null and leaves the mutex held. */
    method Pop() returns (task: Option<nat>)
      requires Valid()
      modifies this, tasks
      ensures task.None? <==> old(list) == []
      ensures locked <==> old(list) == []
      ensures old(list) == [] ==> list == [] && tasks[..] == old(tasks[..])
      ensures old(list) != [] ==>
                && Valid() && task == Some(old(list)[0]) && list == old(list)[1..]
                && tasks[..] == old(tasks[..][list[0] := tasks[list[0]].(next := NIL)])
    {
      locked := true;
      if head == NIL {
        return None;
      }
      var t: nat := head;
      LinkedPop(tasks[..], list, tasks[t].(next := NIL));
      head := tasks[t].next;
      tasks[t] := tasks[t].(next := NIL);
      list := list[1..];
      size := size - 1;
      locked := false;
      return Some(t);
    }

    /** law_task_pool_is_full: true exactly when every task of the array is in the list. */
    method IsFull() returns (full: bool)
      requires Valid() && capacity == tasks.Length
      ensures full <==> forall t: nat :: t < capacity ==> t in list
    {
      full := size == capacity;
      assert forall x :: x in list ==> x < capacity;
      FullList(list, capacity);
    }
  }

  lemma {:induction false} SomeMinimum(t: multiset<Entry>)
    requires t != multiset{}
    ensures exists e :: e in t && forall f :: f in t ==> e.expiry <= f.expiry
    decreases |t|
  {
    var x :| x in t;
    var rest := t - multiset{x};
    if rest != multiset{} {
      SomeMinimum(rest);
      var m :| m in rest && forall f :: f in rest ==> m.expiry <= f.expiry;
      var e := if m.expiry <= x.expiry then m else x;
      forall f | f in t ensures e.expiry <= f.expiry { if f != x { assert f in rest; } }
      assert e in t;
    } else {
      assert forall f :: f in t ==> f == x || f in rest;
    }
  }

  /** In the order of expiry. */
  predicate Sorted(l: seq<Entry>) { forall i, j :: 0 <= i < j < |l| ==> l[i].expiry <= l[j].expiry }

  /** What the timer loop has taken out of a timer, and what it has left. */
  ghost predicate Popped(timer: multiset<Entry>, fired: seq<Entry>, left: multiset<Entry>, now: int) {
    && multiset(fired) <= timer && left == timer - multiset(fired)
    && Sorted(fired) && (forall e :: e in fired ==> e.expiry <= now)
    && (forall i, f :: 0 <= i < |fired| && f in left ==> fired[i].expiry <= f.expiry)
  }

  lemma PoppedNone(timer: multiset<Entry>, now: int)
    ensures Popped(timer, [], timer, now)
  {
  }

  lemma PoppedOne(timer: multiset<Entry>, fired: seq<Entry>, left: multiset<Entry>, now: int, e: Entry)
    requires Popped(timer, fired, left, now) && e in left && e.expiry <= now
    requires forall f :: f in left ==> e.expiry <= f.expiry
    ensures Popped(timer, fired + [e], left - multiset{e}, now)
  {
    hide Sorted;
    PopRest(timer, fired, e);
    PopCounts(timer, fired, e);
    SortedSnoc(fired, e);
    forall i, f | 0 <= i < |fired + [e]| && f in left - multiset{e} ensures (fired + [e])[i].expiry <= f.expiry {
      assert f in left;
    }
  }

  lemma PopCounts(timer: multiset<Entry>, fired: seq<Entry>, e: Entry)
    requires multiset(fired) <= timer && e in timer - multiset(fired)
    ensures multiset(fired + [e]) <= timer
  {
    assert multiset(fired + [e]) == multiset(fired) + multiset{e};
  }

  lemma SortedSnoc(l: seq<Entry>, e: Entry)
    requires Sorted(l) && forall i :: 0 <= i < |l| ==> l[i].expiry <= e.expiry
    ensures Sorted(l + [e])
  {
  }

  lemma PoppedAll(s: State, fired: seq<Entry>, left: multiset<Entry>, now: int)
    requires Popped(s.timer, fired, left, now) && forall e :: e in left ==> e.expiry > now
    ensures multiset(fired) <= s.timer && (forall e :: e in fired ==> e.expiry <= now) && Sorted(fired)
    ensures AllDueFired(s, fired, now)
  {
  }

  class Thread {
    const tasks: array<Task>
    const pool: TaskPool
    var table: map<nat, nat>
    var readyHead: int
    var timer: multiset<Entry>
    ghost var ready: seq<nat>

    /** law_worker_create: an empty table, timer and ready list. */
    constructor (tasks: array<Task>, pool: TaskPool)
      requires pool.tasks == tasks && pool.Valid()
      ensures Valid() && AtRest(View()) && this.tasks == tasks && this.pool == pool
      ensures table == map[] && timer == multiset{}
    {
      this.tasks, this.pool := tasks, pool;
      table, readyHead, timer, ready := map[], NIL, multiset{}, [];
    }

    ghost function View(): State
      reads this, tasks
    {
      State(tasks[..], table, ready, timer, None)
    }

    /** The ready list and the pool's list share the next fields and have no task in common. */
    ghost predicate Valid()
      reads this, tasks, pool
    {
      && pool.tasks == tasks && pool.Valid()
      && Inv(View()) && readyHead == Head(ready)
      && (forall t: nat :: Resident(View(), t) ==> t !in pool.list)
    }

    /** The polling timeout of a tick: it never sleeps past a deadline and shortens only for one. */
    method PollTimeout(now: int, workerTimeout: int) returns (timeout: int)
      requires 0 <= workerTimeout
      ensures 0 <= timeout <= workerTimeout
      ensures forall e :: e in timer ==> timeout == 0 || now + timeout <= e.expiry
      ensures timeout < workerTimeout ==> exists e :: e in timer && e.expiry <= now + timeout
    {
      timeout := workerTimeout;
      if timer != multiset{} {
        SomeMinimum(timer);
        var first :| first in timer && forall f :: f in timer ==> first.expiry <= f.expiry;
        if first.expiry <= now {
          timeout := 0;
        } else {
          var wake := first.expiry - now;
          timeout := if timeout < wake then timeout else wake;
        }
      }
    }

    /** law_ready_set_push. */
    method PushReady(t: nat)
      requires t < tasks.Length && Linked(tasks[..], ready) && readyHead == Head(ready)
      modifies tasks, this`readyHead, this`ready
      ensures View() == ReadyPush(old(View()), t) && readyHead == Head(ready)
      ensures tasks[t].mark && ready == if old(tasks[t].mark) then old(ready) else [t] + old(ready)
    {
      if tasks[t].mark { return; }
      tasks[t] := tasks[t].(mark := true, next := readyHead);
      readyHead := t;
      ready := [t] + ready;
    }

    /** law_task_push_event then law_ready_set_push. */
    method NotifyTask(t: nat, ev: Event)
      requires t < tasks.Length && Linked(tasks[..], ready) && readyHead == Head(ready)
      modifies tasks, this`readyHead, this`ready
      ensures View() == Notify(old(View()), t, ev) && readyHead == Head(ready)
    {
      LinkedFrame(tasks[..], ready, t, PushEvent(tasks[t], ev));
      if |tasks[t].events| < tasks[t].max {
        tasks[t] := tasks[t].(events := tasks[t].events + [ev]);
      }
      PushReady(t);
    }

    lemma PoolUntouched(s: State)
      requires pool.tasks == tasks && !pool.locked && pool.size == |pool.list| && pool.head == Head(pool.list)
      requires Distinct(pool.list) && Linked(s.tasks, pool.list) && SameCores(s, View())
      requires forall t: nat :: Resident(s, t) ==> t !in pool.list
      requires Indexed(s) && Inv(View()) && readyHead == Head(ready)
      ensures Valid()
    {
      assert forall i :: 0 <= i < |pool.list| ==> pool.list[i] in pool.list;
      LinkedSame(s.tasks, tasks[..], pool.list);
    }

    /** Pop one timer entry and wake its task if the entry is not stale. */
    method PopTimer(e: Entry)
      requires Valid()
      modifies tasks, this`readyHead, this`ready, this`timer
      ensures Valid() && View() == TimerPop(old(View()), e) && timer == old(timer) - multiset{e}
    {
      hide Distinct, Awakable, LinkAt;
      ghost var p := View();
      timer := timer - multiset{e};
      if Key(e.id) in table {
        var t := table[Key(e.id)];
        if tasks[t].version == e.version {
          NotifyTask(t, Timeout);
        }
      }
      TimerPopKeepsInv(p, e);
      TimerPopCores(p, p, e);
      PoolUntouched(p);
    }

    lemma FireSnoc(s: State, fired: seq<Entry>, e: Entry)
      requires Idle(s)
      ensures FireAll(s, fired + [e]) == TimerPop(FireAll(s, fired), e)
      ensures FireAll(s, fired).timer == s.timer - multiset(fired)
    {
      assert (fired + [e])[..|fired|] == fired;
      FireAllTimer(s, fired);
    }

    /** The timer loop: pop every entry that is due, a minimal one at a time. */
    method FireTimers(now: int) returns (ghost fired: seq<Entry>)
      requires Valid()
      modifies tasks, this`readyHead, this`ready, this`timer
      ensures Valid() && View() == FireAll(old(View()), fired)
      ensures multiset(fired) <= old(timer) && (forall e :: e in fired ==> e.expiry <= now)
      ensures AllDueFired(old(View()), fired, now)
      ensures Sorted(fired)
    {
      fired := [];
      ghost var s := View();
      PoppedNone(timer, now);
      assert Idle(s) && View() == FireAll(s, fired);
      hide Inv, TimerPop, SameCores, Sorted, Popped, Idle, FireAll, Valid, AllDueFired;
      while timer != multiset{}
        invariant Valid() && View() == FireAll(s, fired)
        invariant Popped(s.timer, fired, timer, now)
        decreases |timer|
      {
        SomeMinimum(timer);
        var e :| e in timer && forall f :: f in timer ==> e.expiry <= f.expiry;
        if e.expiry > now { break; }
        FireSnoc(s, fired, e);
        PoppedOne(s.timer, fired, timer, now, e);
        PopTimer(e);
        fired := fired + [e];
      }
      PoppedAll(s, fired, timer, now);
    }

    /** The event loop over what the poll returned. */
    method DrainPolls(polls: seq<Poll>)
      requires Valid()
      modifies tasks, this`readyHead, this`ready
      ensures Valid() && View() == NotifyAll(old(View()), PollNotices(polls))
    {
      hide Inv, NotifyId, SameCores, NotifyAll, PollNotices;
      ghost var s := View();
      assert View() == NotifyAll(s, PollNotices(polls[..0])) by { NoNotices(s); }
      var i := 0;
      while i < |polls|
        invariant 0 <= i <= |polls|
        invariant Valid() && View() == NotifyAll(s, PollNotices(polls[..i]))
      {
        PollSnoc(s, polls, i);
        if polls[i].word != 0 {
          var slot := Slots.Unpack(polls[i].word);
          NotifyAddressee(slot.id, Io(polls[i].bits, slot.data));
        }
        i := i + 1;
      }
      assert polls[..|polls|] == polls;
    }

    lemma NotifySnoc(s: State, notes: seq<Notice>, n: Notice)
      requires Idle(s)
      ensures NotifyAll(s, notes + [n]) == NotifyId(NotifyAll(s, notes), n.id, n.ev)
    {
    }

    lemma NoNotices(s: State)
      requires Idle(s)
      ensures NotifyAll(s, PollNotices([])) == s && NotifyAll(s, MessageNotices([])) == s
    {
    }

    lemma PollSnoc(s: State, polls: seq<Poll>, i: nat)
      requires Idle(s) && i < |polls|
      ensures var p := NotifyAll(s, PollNotices(polls[..i]));
              var slot := Slots.Unpack(polls[i].word);
              NotifyAll(s, PollNotices(polls[..i + 1])) ==
                if polls[i].word == 0 then p else NotifyId(p, slot.id, Io(polls[i].bits, slot.data))
    {
      hide NotifyId, Inv;
      assert polls[..i + 1][..i] == polls[..i];
      if polls[i].word != 0 {
        NotifySnoc(s, PollNotices(polls[..i]), PollNotice(polls[i])[0]);
      } else {
        assert PollNotices(polls[..i]) + [] == PollNotices(polls[..i]);
      }
    }

    lemma MessageSnoc(s: State, msgs: seq<Message>, i: nat)
      requires Idle(s) && i < |msgs|
      ensures var p := NotifyAll(s, MessageNotices(msgs[..i]));
              NotifyAll(s, MessageNotices(msgs[..i + 1])) ==
                match msgs[i] case Shutdown => p case Wake(id) => NotifyId(p, id, Wakeup)
    {
      hide NotifyId, Inv;
      assert msgs[..i + 1][..i] == msgs[..i];
      if msgs[i].Wake? {
        NotifySnoc(s, MessageNotices(msgs[..i]), Notice(msgs[i].id, Wakeup));
      } else {
        assert MessageNotices(msgs[..i]) + [] == MessageNotices(msgs[..i]);
      }
    }

    /** Look an id up and, if it is resident, deliver an event to its task. */
    method NotifyAddressee(id: nat, ev: Event)
      requires Valid()
      modifies tasks, this`readyHead, this`ready
      ensures Valid() && View() == NotifyId(old(View()), id, ev)
    {
      ghost var p := View();
      if Key(id) in table {
        NotifyTask(table[Key(id)], ev);
      }
      NotifyIdKeepsInv(p, id, ev);
      NotifyIdCores(p, p, id, ev);
      PoolUntouched(p);
    }

    /** The message loop; a SHUTDOWN lets the tick finish and stops the thread after it. */
    method DrainMessages(msgs: seq<Message>) returns (reloop: bool)
      requires Valid()
      modifies tasks, this`readyHead, this`ready
      ensures Valid() && View() == NotifyAll(old(View()), MessageNotices(msgs))
      ensures reloop <==> Shutdown !in msgs
    {
      hide Inv, NotifyId, SameCores, NotifyAll, MessageNotices;
      ghost var s := View();
      assert View() == NotifyAll(s, MessageNotices(msgs[..0])) by { NoNotices(s); }
      reloop := true;
      var i := 0;
      while i < |msgs|
        invariant 0 <= i <= |msgs|
        invariant Valid() && View() == NotifyAll(s, MessageNotices(msgs[..i]))
        invariant reloop <==> Shutdown !in msgs[..i]
      {
        assert msgs[..i + 1] == msgs[..i] + [msgs[i]];
        MessageSnoc(s, msgs, i);
        match msgs[i] {
          case Shutdown =>
            reloop := false;
          case Wake(id) =>
            NotifyAddressee(id, Wakeup);
        }
        i := i + 1;
      }
      assert msgs[..|msgs|] == msgs;
    }

    /** law_table_insert of a task read from the incoming queue, then law_ready_set_push. */
    method AdmitTask(t: nat)
      requires Valid() && t < tasks.Length && Arriving(View(), [t]) && t !in pool.list
      modifies tasks, this`readyHead, this`ready, this`table
      ensures Valid() && View() == Admit(old(View()), t)
    {
      ghost var p := View();
      table := table[Key(tasks[t].id) := t];
      PushReady(t);
      AdmitKeepsPool(p, t);
    }

    lemma AdmitOk(s: State, p: State, incoming: seq<nat>, n: nat)
      requires Idle(s) && n < |incoming| && Arriving(s, incoming[..n + 1]) && p == AdmitAll(s, incoming, n)
      ensures incoming[n] < |p.tasks| && Arriving(p, [incoming[n]]) && |p.table| == |s.table| + n
      ensures |Admit(p, incoming[n]).table| == |s.table| + n + 1
    {
      assert incoming[..n + 1][..n] == incoming[..n];
      ArrivingPrefix(s, incoming[..n + 1], n);
      AdmitAllKeeps(s, incoming, n);
      AdmitAllKeeps(s, incoming, n + 1);
      NextArrives(s, p, incoming, n);
    }

    /** The admission loop: it stops on an empty queue or a table of more than limit tasks. */
    method AdmitIncoming(incoming: seq<nat>, limit: nat) returns (n: nat)
      requires Valid() && Arriving(View(), incoming[..Admissible(|table|, limit, |incoming|)])
      requires forall t :: t in incoming[..Admissible(|table|, limit, |incoming|)] ==> t !in pool.list
      modifies tasks, this`readyHead, this`ready, this`table
      ensures n == Admissible(|old(table)|, limit, |incoming|) && Valid() && View() == AdmitAll(old(View()), incoming, n)
      ensures |table| == |old(table)| + n && (n > 0 ==> |table| <= limit + 1)
      ensures n < |incoming| ==> |table| > limit
    {
      hide Inv, Admit, Arriving;
      n := 0;
      ghost var s, most := View(), Admissible(|table|, limit, |incoming|);
      while |table| <= limit
        invariant n <= most <= |incoming| && Valid() && View() == AdmitAll(s, incoming, n)
        invariant |table| == |s.table| + n && (n > 0 ==> |table| <= limit + 1)
        decreases |incoming| - n
      {
        if n == |incoming| { break; }
        assert n < most && incoming[..most][..n + 1] == incoming[..n + 1] && incoming[..most][n] == incoming[n];
        ArrivingPrefix(s, incoming[..most], n + 1);
        AdmitOk(s, View(), incoming, n);
        AdmitTask(incoming[n]);
        n := n + 1;
      }
    }

    lemma AdmitKeepsPool(p: State, t: nat)
      requires pool.tasks == tasks && !pool.locked && pool.size == |pool.list| && pool.head == Head(pool.list)
      requires Distinct(pool.list) && Linked(p.tasks, pool.list) && t !in pool.list
      requires Idle(p) && t < |p.tasks| && Arriving(p, [t]) && View() == Admit(p, t) && readyHead == Head(ready)
      requires forall u: nat :: Resident(p, u) ==> u !in pool.list
      ensures Valid()
    {
      AdmitOne(p, t);
      forall u: nat | Resident(View(), u) ensures u !in pool.list { AdmitOneResidents(p, t, u); }
      LinkedFrame(p.tasks, pool.list, t, View().tasks[t]);
    }

    /** The state between unlinking the head of the ready list and running it. */
    lemma RunKeepsPool(p: State, l: seq<nat>, o: Outcome)
      requires Idle(p) && p.ready != [] && o != Return(SUSPENDED_SIGNAL)
      requires pool.tasks == tasks && pool.Valid()
      requires forall t: nat :: Resident(p, t) ==> t !in l
      requires View() == RunOne(p, l, o).0 && pool.list == RunOne(p, l, o).1 && readyHead == Head(ready)
      ensures Valid()
    {
      RunOneKeepsIdle(p, l, o);
      forall t: nat | Resident(View(), t) ensures t !in pool.list {
        if t < |p.tasks| { RunOneEffect(p, l, o, t); }
      }
    }

    /** One round of law_worker_dispatch: unlink, run, and suspend the task or retire it to the pool. */
    method RunTask(o: Outcome)
      requires Valid() && ready != [] && o != Return(SUSPENDED_SIGNAL)
      modifies tasks, pool, this`readyHead, this`ready, this`timer, this`table
      ensures Valid() && (View(), pool.list) == RunOne(old(View()), old(pool.list), o)
    {
      hide Awakable, Distinct, LinkAt, Key;
      ghost var p, l := View(), pool.list;
      assert Resident(p, ready[0]);
      LinkedPop(tasks[..], ready, tasks[ready[0]]);
      var t: nat := readyHead;
      readyHead := tasks[t].next;
      tasks[t] := tasks[t].(next := NIL, mark := false, version := (tasks[t].version + 1) % VERSIONS,
                            runs := tasks[t].runs + 1, mode := Running, max := 0, events := []);
      ready := ready[1..];
      match o {
        case Wait(expiry, max) =>
          tasks[t] := tasks[t].(mode := Suspended, max := max, deadline := expiry);
          timer := timer + multiset{EntryOf(tasks[t])};
          LinkedFrame(p.tasks, l, t, tasks[t]);
          assert tasks[..] == p.tasks[t := tasks[t]];
        case Return(value) =>
          assert table[Key(tasks[t].id)] == t;
          table := table - {Key(tasks[t].id)};
          LinkedFrame(p.tasks, l, t, tasks[t]);
          assert tasks[..] == p.tasks[t := tasks[t]];
          pool.Push(t);
      }
      RunKeepsPool(p, l, o);
    }

    /** law_worker_dispatch: run until nothing is ready. */
    method DispatchReady(o: nat -> Outcome)
      requires Valid() && Honest(o)
      modifies tasks, pool, this`readyHead, this`ready, this`timer, this`table
      ensures Valid() && ready == []
      ensures (View(), pool.list) == RunAll(old(View()), old(pool.list), o, |old(ready)|)
    {
      hide Inv, RunOne;
      ghost var p, l := View(), pool.list;
      var n := 0;
      while readyHead != NIL
        invariant 0 <= n <= |p.ready| && Valid()
        invariant (View(), pool.list) == RunAll(p, l, o, n)
        decreases |p.ready| - n
      {
        assert ready == p.ready[n..];
        RunTask(o(n));
        n := n + 1;
      }
    }

    /**
     * law_worker_tick, given the clock, what the poll returned, the messages and tasks
     * waiting in the worker's pipes, and how each run ends.
     */
    method Tick(now: int, polls: seq<Poll>, msgs: seq<Message>, incoming: seq<nat>, limit: nat, o: nat -> Outcome)
      returns (reloop: bool, ghost ins: Inputs)
      requires Valid() && AtRest(View()) && Honest(o)
      requires Arriving(View(), incoming[..Admissible(|table|, limit, |incoming|)])
      requires forall t :: t in incoming[..Admissible(|table|, limit, |incoming|)] ==> t !in pool.list
      modifies tasks, pool, this`readyHead, this`ready, this`timer, this`table
      ensures Valid() && AtRest(View())
      ensures Proper(old(View()), ins) && (View(), pool.list) == TickSpec(old(View()), old(pool.list), ins)
      ensures ins.polls == polls && ins.msgs == msgs && ins.arrivals == incoming && ins.o == o
      ensures AllDueFired(old(View()), ins.fired, now) && (forall e :: e in ins.fired ==> e.expiry <= now)
      ensures ins.admitted == Admissible(|old(table)|, limit, |incoming|)
      ensures reloop <==> Shutdown !in msgs
    {
      hide Inv, Arriving, FireAll, NotifyAll, AdmitAll, RunAll;
      ghost var s, l := View(), pool.list;
      ghost var fired := FireTimers(now);
      DrainPolls(polls);
      reloop := DrainMessages(msgs);
      ins := Inputs(fired, polls, msgs, incoming, Admissible(|table|, limit, |incoming|), o);
      StillArriving(s, ins);
      var n := AdmitIncoming(incoming, limit);
      assert n == ins.admitted;
      EndsAtRest(s, l, ins);
      DispatchReady(o);
    }
  }
}
