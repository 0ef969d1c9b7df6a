/**
 * The queues between the accept thread and the workers are first in, first out: every queue
 * holds its tasks in the order they were spawned, and a worker takes the oldest one
 * (law_task_queue_push and law_task_queue_pop in source/lawd/server.c).
 */
module QueueOrder {
  import opened Pigeonhole
  import opened Sequences
  import opened Worker
  import opened StaleTimers
  import opened Server

  /** The tasks of l in the order they were spawned. */
  predicate InOrder(tasks: seq<Task>, l: seq<nat>) {
    && (forall a :: 0 <= a < |l| ==> l[a] < |tasks|)
    && forall a, b :: 0 <= a < b < |l| ==> tasks[l[a]].life < tasks[l[b]].life
  }

  ghost predicate Ordered(s: Sys) {
    && (forall i: nat :: i < |s.queues| ==> InOrder(s.tasks, s.queues[i]))
    && (s.acc.Armed? && s.acc.t < |s.tasks| ==> s.tasks[s.acc.t].life == s.spawned)
  }

  /** A task in a queue is older than, or is, the last one spawned. */
  lemma QueuedLife(s: Sys, i: nat, t: nat)
    requires SysInv(s) && i < |s.queues| && t in s.queues[i]
    ensures t < |s.tasks| && t < |s.loc| && s.loc[t] == InQueue(i) && s.tasks[t].life <= s.spawned
    ensures s.acc.Armed? ==> t != s.acc.t
    ensures s.acc.Armed? && s.acc.t < |s.tasks| && s.tasks[s.acc.t].life == s.spawned ==>
              s.tasks[t].life < s.spawned
  {
    hide Inv, Dated, Linked, Modes, Unheard, Limits, Phases;
    PlaceOf(s, t, InQueue(i));
    if s.acc.Armed? { PlaceOf(s, s.acc.t, InServer); }
    assert Live(s, t);
  }

  lemma PushKeepsOrdered(s: Sys, i: nat)
    requires SysInv(s) && Enabled(s, Push(i)) && Ordered(s)
    ensures Ordered(Apply(s, Push(i)))
  {
    hide SysInv;
    var t, q := s.acc.t, s.queues[i];
    forall a | 0 <= a < |q| ensures s.tasks[q[a]].life < s.tasks[t].life { QueuedLife(s, i, q[a]); }
    assert InOrder(s.tasks, q + [t]);
  }

  lemma TakeKeepsOrdered(s: Sys, i: nat)
    requires SysInv(s) && Enabled(s, Take(i)) && Ordered(s)
    ensures Ordered(Apply(s, Take(i)))
  {
    hide SysInv;
    assert InOrder(s.tasks, s.queues[i][1..]);
  }

  /** A step that leaves the queues alone and gives no queued task another life. */
  lemma StillOrdered(s: Sys, s': Sys)
    requires SysInv(s) && Ordered(s) && s'.queues == s.queues && |s'.tasks| == |s.tasks|
    requires forall t: nat :: t < |s.tasks| && (s.acc.Popped? ==> t != s.acc.t) ==> s'.tasks[t].life == s.tasks[t].life
    requires s'.acc.Armed? && s'.acc.t < |s.tasks| ==> s'.tasks[s'.acc.t].life == s'.spawned
    ensures Ordered(s')
  {
    hide Inv, Dated, Linked, Modes, Lives, Unheard, Limits, Phases;
    forall i: nat | i < |s.queues| ensures InOrder(s'.tasks, s'.queues[i]) {
      assert InOrder(s.tasks, s.queues[i]);
      forall a | 0 <= a < |s.queues[i]|
        ensures s'.tasks[s.queues[i][a]].life == s.tasks[s.queues[i][a]].life
      {
        PlaceOf(s, s.queues[i][a], InQueue(i));
        if s.acc.Popped? { PlaceOf(s, s.acc.t, InServer); }
      }
    }
  }

  lemma StepKeepsOrdered(s: Sys, a: Step)
    requires SysInv(s) && Enabled(s, a) && Ordered(s)
    ensures Ordered(Apply(s, a))
  {
    assert Shape(s);
    hide SysInv, Ordered, CanInsert;
    if a.Push? {
      PushKeepsOrdered(s, a.i);
    } else if a.Take? {
      TakeKeepsOrdered(s, a.i);
    } else {
      LivesStay(s, a);
      StillOrdered(s, Apply(s, a));
    }
  }

  lemma LivesStay(s: Sys, a: Step)
    requires SysInv(s) && Enabled(s, a) && Ordered(s) && !a.Push? && !a.Take?
    ensures var s' := Apply(s, a);
            && s'.queues == s.queues && |s'.tasks| == |s.tasks|
            && (forall t: nat :: t < |s.tasks| && (s.acc.Popped? ==> t != s.acc.t) ==>
                  s'.tasks[t].life == s.tasks[t].life)
            && (s'.acc.Armed? && s'.acc.t < |s.tasks| ==> s'.tasks[s'.acc.t].life == s'.spawned)
  {
    hide Inv, Dated, Linked, Places, Modes, Lives, Unheard, Limits, Phases;
  }

  lemma {:induction false} RunKeepsOrdered(s: Sys, steps: seq<Step>, s': Sys)
    requires SysInv(s) && Ordered(s) && Runs(s, steps, s')
    ensures Ordered(s')
    decreases |steps|
  {
    hide SysInv, Enabled, Apply, Ordered;
    if steps != [] {
      var m :| Runs(s, Front(steps), m) && Next(m, Last(steps), s');
      RunKeepsOrdered(s, Front(steps), m);
      RunKeepsInv(s, Front(steps), m);
      StepKeepsOrdered(m, Last(steps));
    }
  }

  lemma ReachableIsOrdered(s: Sys)
    requires Reachable(s)
    ensures Ordered(s)
  {
    hide SysInv, Runs;
    var s0, workers, steps :| Init(s0, workers) && Runs(s0, steps, s);
    InitInv(s0, workers);
    RunKeepsOrdered(s0, steps, s);
  }

  /** In every reachable state the task that a worker takes was spawned before every other in its queue. */
  lemma OldestIsTaken(s: Sys, i: nat, u: nat)
    requires Reachable(s) && Enabled(s, Take(i)) && u in s.queues[i]
    ensures Shape(s)
    ensures var s' := Apply(s, Take(i));
            && s'.locals[i].hand.Some? && s'.locals[i].hand.value < |s.tasks| && u < |s.tasks|
            && (u != s'.locals[i].hand.value ==>
                  u in s'.queues[i] && s.tasks[s'.locals[i].hand.value].life < s.tasks[u].life)
  {
    ReachableIsOrdered(s);
    ReachableInv(s);
    hide Reachable, SysInv;
    var a: nat :| a < |s.queues[i]| && s.queues[i][a] == u;
    assert InOrder(s.tasks, s.queues[i]);
    if a > 0 { assert s.queues[i][1..][a - 1] == u; }
  }
}
