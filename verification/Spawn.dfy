/**
 * Placing a spawned task on a worker's queue: the accept thread's round-robin probe,
 * which retries until a queue has room, and law_spawn, which tries once
 * (source/lawd/server.c).
 */
module Spawn {
  import opened Worker
  import WorkerThread
  import Slots
  import opened Modular

  datatype Fd = Socket | QueueEnd(i: nat)

  datatype Interest = Readable | Writable

  datatype SpawnResult = Placed | Limit | WantW

  /** The x-th queue tried for a task with this id. */
  function Probe(x: nat, id: nat, n: nat): nat
    requires n > 0
  {
    (x + id) % n
  }

  /** The turn at which queue i is tried. */
  function Turn(i: nat, id: nat, n: nat): nat
    requires n > 0
  {
    (i + (n - id % n)) % n
  }

  /** The probe order visits every queue exactly once. */
  lemma ProbeIsAPermutation(i: nat, x: nat, id: nat, n: nat)
    requires i < n && x < n
    ensures Turn(i, id, n) < n && Probe(Turn(i, id, n), id, n) == i
    ensures Probe(x, id, n) == i ==> x == Turn(i, id, n)
  {
    hide Turn;
    TurnIs(i, id, n);
    TurnReaches(i, Turn(i, id, n), id, n);
    if Probe(x, id, n) == i { ModUnique(x + id, Turn(i, id, n) + id, n); }
  }

  /** The probe starts at the queue that the id selects and goes up by one, back to the first after the last. */
  lemma ProbeAscends(x: nat, id: nat, n: nat)
    requires n > 0
    ensures Probe(0, id, n) == id % n
    ensures Probe(x + 1, id, n) == if Probe(x, id, n) + 1 == n then 0 else Probe(x, id, n) + 1
  {
    var q, r := (x + id) / n, (x + id) % n;
    Split(x + id, n);
    if r + 1 == n {
      Distribute(n, q, 1);
      Quotient(x + 1 + id, q + 1, 0, n);
    } else {
      Quotient(x + 1 + id, q, r + 1, n);
    }
  }

  lemma TurnReaches(i: nat, t: nat, id: nat, n: nat)
    requires i < n && t == (i + (n - id % n)) % n
    ensures (t + id) % n == i
  {
    var back := i + (n - id % n);
    ModAdd(id, back, n);
    WholeTurns(i, id, back, n);
  }

  lemma WholeTurns(i: nat, id: nat, back: nat, n: nat)
    requires i < n && back == i + (n - id % n)
    ensures (id + back) % n == i
  {
    var q, r := id / n, id % n;
    Split(id, n);
    Distribute(n, q, 1);
    AddMultiple(i, q + 1, n);
    Quotient(i, 0, i, n);
  }

  lemma TurnIs(i: nat, id: nat, n: nat)
    requires n > 0
    ensures Turn(i, id, n) == (i + (n - id % n)) % n && Turn(i, id, n) < n
  {
  }

  // Round robin -------------------------------------------------------------------

  /** How many of the first m spawned tasks go to worker i when no queue is full. */
  function Assigned(m: nat, i: nat, n: nat): nat
    requires n > 0
  {
    if m == 0 then 0 else Assigned(m - 1, i, n) + if Probe(0, m % IDS, n) == i then 1 else 0
  }

  lemma {:induction false} AssignedIs(m: nat, i: nat, n: nat)
    requires i < n && m < IDS
    ensures Assigned(m, i, n) == m / n + if 1 <= i <= m % n then 1 else 0
  {
    if m > 0 {
      AssignedIs(m - 1, i, n);
      Quotient(m, 0, m, IDS);
      var q, r := (m - 1) / n, (m - 1) % n;
      Split(m - 1, n);
      if r == n - 1 {
        Distribute(n, q, 1);
        Quotient(m, q + 1, 0, n);
      } else {
        Quotient(m, q, r + 1, n);
      }
    } else {
      Quotient(0, 0, 0, n);
    }
  }

  /** Before ids wrap, any two workers' shares differ by at most one. */
  lemma RoundRobinIsFair(m: nat, i: nat, j: nat, n: nat)
    requires i < n && j < n && m < IDS
    ensures -1 <= Assigned(m, i, n) - Assigned(m, j, n) <= 1
  {
    AssignedIs(m, i, n);
    AssignedIs(m, j, n);
  }

  /** One success of law_spawn_dispatch_once: the queues before and after it, and the task. */
  datatype Call = Call(before: seq<seq<nat>>, after: seq<seq<nat>>, task: nat)

  /** How many tasks the calls put on queue i, whatever the workers took in between. */
  function Received(calls: seq<Call>, i: nat): int
    requires forall c :: c in calls ==> i < |c.before| && i < |c.after|
  {
    if calls == [] then 0
    else
      var c := calls[|calls| - 1];
      Received(calls[..|calls| - 1], i) + |c.after[i]| - |c.before[i]|
  }

  // The queues -----------------------------------------------------------------------

  function Total(qs: seq<seq<nat>>): nat { if qs == [] then 0 else |qs[0]| + Total(qs[1..]) }

  lemma {:induction false} TotalAppend(qs: seq<seq<nat>>, i: nat, t: nat)
    requires i < |qs|
    ensures Total(qs[i := qs[i] + [t]]) == Total(qs) + 1
  {
    if i > 0 {
      TotalAppend(qs[1..], i - 1, t);
      assert qs[i := qs[i] + [t]][1..] == qs[1..][i - 1 := qs[i] + [t]];
    } else {
      assert qs[0 := qs[0] + [t]][1..] == qs[1..];
    }
  }

  /** The accept thread's view: each worker's incoming pipe, and its own event registrations. */
  class Dispatcher {
    const queues: array<seq<nat>>
    const room: nat
    const pool: WorkerThread.TaskPool
    const ids: Slots.Generator
    var registered: map<Fd, Interest>
    ghost var waits: seq<map<Fd, Interest>>     // what was registered at each law_evo_wait for room

    /** law_server_create and law_open: queues open and empty, the socket registered. */
    constructor (workers: nat, room: nat, pool: WorkerThread.TaskPool, ids: Slots.Generator)
      requires workers > 0
      ensures fresh(queues) && queues.Length == workers && this.room == room && this.pool == pool && this.ids == ids
      ensures Listening()
      ensures forall i :: 0 <= i < workers ==> queues[i] == []
    {
      queues := new seq<nat>[workers](_ => []);
      this.room, this.pool, this.ids := room, pool, ids;
      registered := map[Socket := Readable];
      waits := [];
    }

    ghost predicate Listening()
      reads this
    {
      queues.Length > 0 && registered == map[Socket := Readable]
    }

    /** The write ends of all queues are registered for writing, and nothing else is. */
    ghost predicate AwaitsRoom(during: map<Fd, Interest>) {
      forall f :: (f in during <==> f.QueueEnd? && f.i < queues.Length) && (f in during ==> during[f] == Writable)
    }

    /** Turn x is the first to find room, and its queue alone gets the task, at the end. */
    ghost predicate AppendedAt(before: seq<seq<nat>>, after: seq<seq<nat>>, x: nat, id: nat, task: nat) {
      && x < |before| && |before| == |after|
      && (forall y: nat :: y < x ==> |before[Probe(y, id, |before|)]| >= room)
      && var k := Probe(x, id, |before|);
         |before[k]| < room && after == before[k := before[k] + [task]]
    }

    /**
     * law_spawn_dispatch_once: the task is appended to the first queue in probe order that
     * has room; if none has, no queue changes and the registrations end as they began.
     */
    method DispatchOnce(id: nat, task: nat) returns (done: bool)
      requires Listening()
      modifies queues, this`registered, this`waits
      ensures Listening()
      ensures if done then waits == old(waits) else |waits| == |old(waits)| + 1 && AwaitsRoom(waits[|old(waits)|])
      ensures done ==> exists x: nat :: AppendedAt(old(queues[..]), queues[..], x, id, task)
      ensures !done ==> queues[..] == old(queues[..])
      ensures done <==> exists i: nat :: i < queues.Length && |old(queues[i])| < room
    {
      var n := queues.Length;
      var x := 0;
      while x < n
        invariant 0 <= x <= n && queues[..] == old(queues[..])
        invariant forall y: nat :: y < x ==> |queues[Probe(y, id, n)]| >= room
      {
        var index := (x + id) % n;
        if |queues[index]| < room {
          ghost var before := queues[..];
          queues[index] := queues[index] + [task];
          assert AppendedAt(before, queues[..], x, id, task);
          return true;
        }
        x := x + 1;
      }
      forall i: nat | i < n ensures |queues[i]| >= room { ProbeIsAPermutation(i, 0, id, n); }
      AwaitRoom(n);
      return false;
    }

    /** Successful calls for ids 1, 2, ... in turn, each with room in every queue. */
    ghost predicate RoundRobin(calls: seq<Call>, n: nat) {
      forall k: nat :: k < |calls| ==> Roomy(calls[k], n) && Dispatches(calls[k], (k + 1) % IDS)
    }

    ghost predicate Roomy(c: Call, n: nat) {
      |c.before| == |c.after| == n && forall i :: 0 <= i < n ==> |c.before[i]| < room
    }

    ghost predicate Dispatches(c: Call, id: nat) { exists x: nat :: AppendedAt(c.before, c.after, x, id, c.task) }

    /** What each queue receives is its share. */
    lemma {:induction false} SharesAreReceived(calls: seq<Call>, n: nat, i: nat)
      requires i < n && RoundRobin(calls, n)
      ensures forall c :: c in calls ==> i < |c.before| && i < |c.after|
      ensures Received(calls, i) == Assigned(|calls|, i, n)
      decreases |calls|
    {
      hide Probe, AppendedAt, Dispatches;
      assert forall c :: c in calls ==> Roomy(c, n);
      if calls != [] {
        var m := |calls| - 1;
        assert forall k: nat :: k < m ==> calls[..m][k] == calls[k];
        SharesAreReceived(calls[..m], n, i);
        FirstTryTakesIt(calls[m], (m + 1) % IDS, n);
      }
    }

    lemma FirstTryTakesIt(c: Call, id: nat, n: nat)
      requires n > 0 && Roomy(c, n) && Dispatches(c, id)
      ensures var k := Probe(0, id, n); k < n && c.after == c.before[k := c.before[k] + [c.task]]
    {
      ProbeBound(0, id, n);
      hide Probe;
      var x: nat :| AppendedAt(c.before, c.after, x, id, c.task);
      assert x == 0;
    }

    lemma ProbeBound(x: nat, id: nat, n: nat)
      requires n > 0
      ensures Probe(x, id, n) < n
    {
    }

    /** Before ids wrap, any two queues have received the same number of tasks, or one has received one more. */
    lemma QueuesShareFairly(calls: seq<Call>, n: nat, i: nat, j: nat)
      requires i < n && j < n && RoundRobin(calls, n) && |calls| < IDS
      ensures forall c :: c in calls ==> i < |c.before| && i < |c.after| && j < |c.before| && j < |c.after|
      ensures -1 <= Received(calls, i) - Received(calls, j) <= 1
    {
      hide RoundRobin, Received, Assigned;
      SharesAreReceived(calls, n, i);
      SharesAreReceived(calls, n, j);
      RoundRobinIsFair(|calls|, i, j, n);
    }

    /** The wait for room: the socket is unregistered and every queue's write end registered, and back. */
    method AwaitRoom(n: nat)
      requires Listening() && n == queues.Length
      modifies this`registered, this`waits
      ensures Listening()
      ensures |waits| == |old(waits)| + 1 && waits[..|old(waits)|] == old(waits) && AwaitsRoom(waits[|old(waits)|])
    {
      registered := registered - {Socket};
      var x := 0;
      while x < n
        modifies this`registered
        invariant 0 <= x <= n
        invariant forall f :: f in registered <==> f.QueueEnd? && f.i < x
        invariant forall f :: f in registered ==> registered[f] == Writable
      {
        assert QueueEnd(x) !in registered;
        registered := registered[QueueEnd(x) := Writable];
        x := x + 1;
      }
      waits := waits + [registered];
      registered := registered[Socket := Readable];
      x := 0;
      while x < n
        modifies this`registered
        invariant 0 <= x <= n
        invariant Socket in registered && registered[Socket] == Readable
        invariant forall f :: f in registered <==> f == Socket || (f.QueueEnd? && x <= f.i < n)
      {
        assert QueueEnd(x) in registered;
        registered := registered - {QueueEnd(x)};
        x := x + 1;
      }
      assert registered.Keys == {Socket};
      assert registered == map[Socket := Readable];
    }

    /** Tasks in the pool or in a queue. */
    ghost function Held(): nat
      reads this, pool, queues
    {
      |pool.list| + Total(queues[..])
    }

    /**
     * law_spawn: a task popped when every queue is full is put nowhere, so tasks are
     * conserved exactly when the pool is empty or some queue has room.
     */
    method SpawnTask(version: nat) returns (r: SpawnResult)
      requires Listening() && pool.Valid() && ids.Valid() && version < VERSIONS
      modifies pool, pool.tasks, ids, queues
      ensures r == Limit <==> old(pool.list) == []
      ensures r == WantW <==> old(pool.list) != [] && forall i: nat :: i < queues.Length ==> |old(queues[i])| >= room
      ensures r != Limit ==> pool.Valid() && pool.list == old(pool.list)[1..]
      ensures r == Limit ==> pool.locked
      ensures r == Placed ==>
                && (exists i: nat :: AppendedAt(old(queues[..]), queues[..], i, 0, old(pool.list)[0]))
                && var r := pool.tasks[old(pool.list)[0]];
                   r.mode.Spawned? && r.id == old(ids.count + 1) % IDS && r.version == version && r.next == NIL
      ensures forall u: nat :: u < pool.tasks.Length && (r == Limit || u != old(pool.list)[0]) ==>
                pool.tasks[u] == old(pool.tasks[u])
      ensures r != Placed ==> queues[..] == old(queues[..])
      ensures Held() == old(Held()) <==>
                old(pool.list) == [] || exists i: nat :: i < queues.Length && |old(queues[i])| < room
    {
      var popped := pool.Pop();
      if popped.None? { return Limit; }
      var t := popped.value;
      assert t !in pool.list;
      var id := ids.Next();
      ghost var tasks := pool.tasks[..];
      pool.tasks[t] := pool.tasks[t].(id := id, version := version, mode := Spawned);
      LinkedFrame(tasks, pool.list, t, pool.tasks[t]);
      assert pool.tasks[..] == tasks[t := pool.tasks[t]];
      var x := 0;
      while x < queues.Length
        invariant 0 <= x <= queues.Length && queues[..] == old(queues[..])
        invariant forall y: nat :: y < x ==> |queues[y]| >= room
      {
        if |queues[x]| < room {
          ghost var before := queues[..];
          TotalAppend(before, x, t);
          queues[x] := queues[x] + [t];
          assert queues[..] == before[x := before[x] + [t]];
          forall y: nat | y < queues.Length ensures Probe(y, 0, queues.Length) == y { Quotient(y, 0, y, queues.Length); }
          assert AppendedAt(before, queues[..], x, 0, t);
          return Placed;
        }
        x := x + 1;
      }
      return WantW;
    }
  }
}
