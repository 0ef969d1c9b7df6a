/**
 * The buffers and stacks an HTTP server lends to the entries running on one worker, and
 * the cleanup of one entry (source/lawd/http_server.c).  Entries suspend between taking
 * their four items and giving them back, so takes and returns interleave freely.
 */
module HttpPools {
  import opened Modular
  import opened Pigeonhole
  import opened Worker

  const POOLS: nat := 4                         // in, out, heap and stack, in this order

  /** What one running entry has taken: one item of each pool. */
  datatype Holder = Holder(task: nat, kit: seq<nat>)

  /**
   * One worker: how many tasks exist, the bound its admission test compares with (worker_tasks
   * as written), the free list of each pool, the admitted tasks and the entries under way.
   */
  datatype Local = Local(
    total: nat, limit: int, free: seq<seq<nat>>, residents: set<nat>, held: seq<Holder>, failed: bool)

  datatype Move = Admit(t: nat) | Enter(t: nat) | Leave(i: nat)

  /** The list that pool_init builds, by pushing 0, 1, ... to the front. */
  function Fresh(n: nat): seq<nat> { if n == 0 then [] else [n - 1] + Fresh(n - 1) }

  function Init(w: nat, total: nat, limit: int): Local {
    Local(total, limit, seq(POOLS, _ => Fresh(w)), {}, [], false)
  }

  function Tasks(held: seq<Holder>): seq<nat> { seq(|held|, i requires 0 <= i < |held| => held[i].task) }

  predicate Kits(held: seq<Holder>) { forall i :: 0 <= i < |held| ==> |held[i].kit| == POOLS }

  /** The items of pool k that entries hold. */
  function Column(held: seq<Holder>, k: nat): seq<nat>
    requires Kits(held) && k < POOLS
  {
    seq(|held|, i requires 0 <= i < |held| => held[i].kit[k])
  }

  predicate Shaped(s: Local) { |s.free| == POOLS && Kits(s.held) }

  predicate Enabled(s: Local, m: Move) {
    && Shaped(s) && !s.failed
    && match m
       case Admit(t) => t < s.total && t !in s.residents && |s.residents| <= s.limit
       case Enter(t) => t in s.residents && t !in Tasks(s.held)
       case Leave(i) => i < |s.held|
  }

  predicate AnyEmpty(free: seq<seq<nat>>) { [] in free }

  function Popped(free: seq<seq<nat>>): seq<seq<nat>>
    requires !AnyEmpty(free)
  {
    seq(|free|, k requires 0 <= k < |free| => free[k][1..])
  }

  function Fronts(free: seq<seq<nat>>): seq<nat>
    requires !AnyEmpty(free)
  {
    seq(|free|, k requires 0 <= k < |free| => free[k][0])
  }

  function Pushed(free: seq<seq<nat>>, kit: seq<nat>): seq<seq<nat>>
    requires |kit| == |free|
  {
    seq(|free|, k requires 0 <= k < |free| => [kit[k]] + free[k])
  }

  /** law_hts_entry up to its assertion, and from its cleanup to the task's return to the pool. */
  function Apply(s: Local, m: Move): Local
    requires Enabled(s, m)
  {
    match m
    case Admit(t) => s.(residents := s.residents + {t})
    case Enter(t) =>
      if AnyEmpty(s.free) then s.(failed := true)
      else s.(free := Popped(s.free), held := s.held + [Holder(t, Fronts(s.free))])
    case Leave(i) =>
      s.(free := Pushed(s.free, s.held[i].kit), residents := s.residents - {s.held[i].task},
         held := s.held[..i] + s.held[i + 1..])
  }

  // Runs ------------------------------------------------------------------------------------

  /** The state a sequence of moves leads to; a move that is not enabled ends the run in None. */
  function After(s: Local, ms: seq<Move>): Option<Local>
    decreases |ms|
  {
    if ms == [] then Some(s)
    else
      var p := After(s, ms[..|ms| - 1]);
      if p.Some? && Enabled(p.value, ms[|ms| - 1]) then Some(Apply(p.value, ms[|ms| - 1])) else None
  }

  lemma AfterSnoc(s: Local, ms: seq<Move>, m: Move)
    requires After(s, ms).Some? && Enabled(After(s, ms).value, m)
    ensures After(s, ms + [m]) == Some(Apply(After(s, ms).value, m))
  {
  }

  /** Free and held items of each pool are, together, the items it was made with. */
  ghost predicate Whole(s: Local, w: nat)
    requires Shaped(s)
  {
    forall k: nat :: k < POOLS ==> multiset(s.free[k]) + multiset(Column(s.held, k)) == multiset(Fresh(w))
  }

  ghost predicate PoolInv(s: Local, w: nat) {
    && Shaped(s) && Whole(s, w)
    && Distinct(Tasks(s.held)) && (forall t :: t in Tasks(s.held) ==> t in s.residents)
    && s.residents <= Below(s.total) && |s.residents| <= if s.limit < 0 then 0 else s.limit + 1
  }

  lemma {:induction false} FreshIs(n: nat)
    ensures |Fresh(n)| == n && Distinct(Fresh(n)) && forall x :: x in Fresh(n) <==> 0 <= x < n
    ensures forall i :: 0 <= i < n ==> Fresh(n)[i] == n - 1 - i
  {
    if n > 0 {
      FreshIs(n - 1);
      var rest := Fresh(n - 1);
      assert forall i :: 0 <= i < |rest| ==> rest[i] in rest;
    }
  }

  lemma ColumnSnoc(held: seq<Holder>, h: Holder, k: nat)
    requires Kits(held + [h]) && k < POOLS && |h.kit| == POOLS && Kits(held)
    ensures Column(held + [h], k) == Column(held, k) + [h.kit[k]]
    ensures Tasks(held + [h]) == Tasks(held) + [h.task]
  {
  }

  lemma EnterKeepsWhole(s: Local, t: nat, w: nat)
    requires Enabled(s, Enter(t)) && PoolInv(s, w) && !AnyEmpty(s.free)
    ensures var n := Apply(s, Enter(t)); Shaped(n) && Whole(n, w)
  {
    var n := Apply(s, Enter(t));
    var h := Holder(t, Fronts(s.free));
    forall k: nat | k < POOLS
      ensures multiset(n.free[k]) + multiset(Column(n.held, k)) == multiset(Fresh(w))
    {
      ColumnSnoc(s.held, h, k);
      assert s.free[k] == [s.free[k][0]] + s.free[k][1..];
    }
  }

  lemma LeaveKeepsWhole(s: Local, i: nat, w: nat)
    requires Enabled(s, Leave(i)) && PoolInv(s, w)
    ensures var n := Apply(s, Leave(i)); Shaped(n) && Whole(n, w)
  {
    var n := Apply(s, Leave(i));
    assert forall j :: 0 <= j < |n.held| ==> n.held[j] in s.held;
    assert forall h :: h in s.held ==> |h.kit| == POOLS;
    forall k: nat | k < POOLS
      ensures multiset(n.free[k]) + multiset(Column(n.held, k)) == multiset(Fresh(w))
    {
      ColumnWithout(s.held, i, k);
    }
  }

  lemma ColumnWithout(held: seq<Holder>, i: nat, k: nat)
    requires k < POOLS && i < |held| && Kits(held) && Kits(held[..i] + held[i + 1..])
    ensures multiset(Column(held, k)) == multiset{held[i].kit[k]} + multiset(Column(held[..i] + held[i + 1..], k))
  {
    var c := Column(held, k);
    assert Column(held[..i] + held[i + 1..], k) == c[..i] + c[i + 1..];
    assert c == c[..i] + [c[i]] + c[i + 1..];
  }

  lemma LeaveKeepsHolders(s: Local, i: nat)
    requires Enabled(s, Leave(i))
    requires Distinct(Tasks(s.held)) && forall t :: t in Tasks(s.held) ==> t in s.residents
    ensures var n := Apply(s, Leave(i)); Distinct(Tasks(n.held)) && forall t :: t in Tasks(n.held) ==> t in n.residents
  {
    var n, ts := Apply(s, Leave(i)), Tasks(s.held);
    assert Tasks(n.held) == ts[..i] + ts[i + 1..];
    forall t | t in Tasks(n.held) ensures t in n.residents {
      assert t in ts && t != ts[i];
    }
  }

  lemma MoveKeepsInv(s: Local, m: Move, w: nat)
    requires Enabled(s, m) && PoolInv(s, w)
    ensures PoolInv(Apply(s, m), w)
  {
    BelowIs(s.total);
    match m {
      case Admit(t) =>
      case Enter(t) =>
        if !AnyEmpty(s.free) {
          EnterKeepsWhole(s, t, w);
          ColumnSnoc(s.held, Holder(t, Fronts(s.free)), 0);
        }
      case Leave(i) =>
        LeaveKeepsWhole(s, i, w);
        LeaveKeepsHolders(s, i);
    }
  }

  /** In every run, each pool's free and held items add up to w, and no item is held twice or both held and free. */
  lemma {:induction false} PoolsAreConserved(w: nat, total: nat, limit: int, ms: seq<Move>)
    requires After(Init(w, total, limit), ms).Some?
    ensures var s := After(Init(w, total, limit), ms).value;
            && PoolInv(s, w)
            && forall k: nat :: k < POOLS ==>
                 && |s.free[k]| + |s.held| == w
                 && forall x: nat :: multiset(s.free[k])[x] + multiset(Column(s.held, k))[x] == if x < w then 1 else 0
    decreases |ms|
  {
    var s := After(Init(w, total, limit), ms).value;
    if ms == [] {
      forall k: nat | k < POOLS ensures Column(s.held, k) == [] {}
    } else {
      PoolsAreConserved(w, total, limit, ms[..|ms| - 1]);
      MoveKeepsInv(After(Init(w, total, limit), ms[..|ms| - 1]).value, ms[|ms| - 1], w);
    }
    forall k: nat | k < POOLS
      ensures |s.free[k]| + |s.held| == w
      ensures forall x: nat :: multiset(s.free[k])[x] + multiset(Column(s.held, k))[x] == if x < w then 1 else 0
    {
      WholeCounts(s, w, k);
    }
  }

  lemma WholeCounts(s: Local, w: nat, k: nat)
    requires Shaped(s) && Whole(s, w) && k < POOLS
    ensures |s.free[k]| + |s.held| == w
    ensures forall x: nat :: multiset(s.free[k])[x] + multiset(Column(s.held, k))[x] == if x < w then 1 else 0
  {
    var all := multiset(s.free[k]) + multiset(Column(s.held, k));
    assert |all| == |multiset(Fresh(w))|;
    FreshIs(w);
    forall x: nat
      ensures multiset(s.free[k])[x] + multiset(Column(s.held, k))[x] == if x < w then 1 else 0
    {
      assert all[x] == multiset(Fresh(w))[x];
      DistinctOnce(Fresh(w), x);
    }
  }

  lemma {:induction false} DistinctOnce(l: seq<nat>, x: nat)
    requires Distinct(l)
    ensures multiset(l)[x] == if x in l then 1 else 0
  {
    if l != [] {
      assert l == [l[0]] + l[1..];
      DistinctOnce(l[1..], x);
    }
  }

  /** The assertion that all four pops gave something holds exactly while fewer than w entries are under way. */
  lemma AssertionHoldsExactly(w: nat, total: nat, limit: int, ms: seq<Move>, t: nat)
    requires After(Init(w, total, limit), ms).Some? && Enabled(After(Init(w, total, limit), ms).value, Enter(t))
    ensures var s := After(Init(w, total, limit), ms).value;
            Apply(s, Enter(t)).failed <==> |s.held| >= w
  {
    PoolsAreConserved(w, total, limit, ms);
    var s := After(Init(w, total, limit), ms).value;
    if [] in s.free {
      var k: nat :| k < POOLS && s.free[k] == [];
    } else {
      assert s.free[0] in s.free && s.free[0] != [];
    }
  }

  // When the assertion can fail ---------------------------------------------------------------

  lemma {:induction false} FailureNeedsRoom(w: nat, total: nat, limit: int, ms: seq<Move>)
    requires After(Init(w, total, limit), ms).Some? && After(Init(w, total, limit), ms).value.failed
    ensures total > w && limit >= w
    decreases |ms|
  {
    assert ms != [];
    var p := After(Init(w, total, limit), ms[..|ms| - 1]).value;
    var m := ms[|ms| - 1];
    PoolsAreConserved(w, total, limit, ms[..|ms| - 1]);
    assert m.Enter?;
    AssertionHoldsExactly(w, total, limit, ms[..|ms| - 1], m.t);
    var ts := Tasks(p.held) + [m.t];
    DistinctCount(ts);
    BelowIs(p.total);
    assert p.total == total && p.limit == limit by { Fixed(Init(w, total, limit), ms[..|ms| - 1]); }
    assert Members(ts) <= p.residents;
    Smaller(Members(ts), p.residents);
    Smaller(p.residents, Below(total));
  }

  lemma {:induction false} Fixed(s: Local, ms: seq<Move>)
    requires After(s, ms).Some?
    ensures After(s, ms).value.total == s.total && After(s, ms).value.limit == s.limit
    decreases |ms|
  {
    if ms != [] { Fixed(s, ms[..|ms| - 1]); }
  }

  function Admits(n: nat): seq<Move> { if n == 0 then [] else Admits(n - 1) + [Admit(n - 1)] }

  /** After n admissions and nothing else. */
  ghost predicate Admitted(s: Local, total: nat, limit: int, n: nat) {
    Shaped(s) && !s.failed && s.total == total && s.limit == limit && s.residents == Below(n) && s.held == []
  }

  lemma NextAdmission(s: Local, total: nat, limit: int, n: nat)
    requires Admitted(s, total, limit, n) && n < total && n <= limit
    ensures Enabled(s, Admit(n)) && Admitted(Apply(s, Admit(n)), total, limit, n + 1)
  {
    BelowIs(n);
  }

  lemma {:induction false} AdmitsRun(w: nat, total: nat, limit: int, n: nat)
    requires n <= total && n <= limit + 1
    ensures var a := After(Init(w, total, limit), Admits(n)); a.Some? && Admitted(a.value, total, limit, n)
  {
    if n > 0 {
      hide Init, Admitted, Enabled, Apply, After;
      AdmitsRun(w, total, limit, n - 1);
      var a := After(Init(w, total, limit), Admits(n - 1)).value;
      NextAdmission(a, total, limit, n - 1);
      AfterSnoc(Init(w, total, limit), Admits(n - 1), Admit(n - 1));
    }
  }

  function Enters(ms: seq<Move>, n: nat): seq<Move> { if n == 0 then ms else Enters(ms, n - 1) + [Enter(n - 1)] }

  /** After w + 1 admissions and the entries of tasks 0 up to n. */
  ghost predicate Entered(s: Local, w: nat, n: nat) {
    && Shaped(s) && !s.failed && s.total > w && s.residents == Below(w + 1)
    && |s.held| == n && forall i :: 0 <= i < n ==> s.held[i].task == i
  }

  lemma NextEntry(s: Local, w: nat, n: nat)
    requires Entered(s, w, n) && n <= w
    ensures Enabled(s, Enter(n)) && (!Apply(s, Enter(n)).failed ==> Entered(Apply(s, Enter(n)), w, n + 1))
  {
    BelowIs(w + 1);
  }

  lemma {:induction false} EntersRun(w: nat, total: nat, limit: int, n: nat)
    requires w < total && w <= limit && n <= w
    ensures var a := After(Init(w, total, limit), Enters(Admits(w + 1), n)); a.Some? && Entered(a.value, w, n)
  {
    if n == 0 {
      AdmitsRun(w, total, limit, w + 1);
    } else {
      hide Apply, Init, Admits, Entered, Enabled, After;
      EntersRun(w, total, limit, n - 1);
      var ms := Enters(Admits(w + 1), n - 1);
      var a := After(Init(w, total, limit), ms).value;
      NextEntry(a, w, n - 1);
      EnteredCount(a, w, n - 1);
      AssertionHoldsExactly(w, total, limit, ms, n - 1);
      AfterSnoc(Init(w, total, limit), ms, Enter(n - 1));
    }
  }

  lemma EnteredCount(s: Local, w: nat, n: nat)
    requires Entered(s, w, n)
    ensures |s.held| == n
  {
  }

  /**
   * For every pool size w: some interleaving makes the assertion fail exactly when there
   * are more than w tasks and the admission test lets the table grow past w.  As written
   * (limit = w) that is any server with two workers or more; with a strict test, none.
   */
  lemma PoolsAreAdequateExactly(w: nat, total: nat, limit: int)
    ensures (exists ms: seq<Move> :: var a := After(Init(w, total, limit), ms); a.Some? && a.value.failed)
            <==> total > w && limit >= w
  {
    if total > w && limit >= w {
      EntersRun(w, total, limit, w);
      var ms := Enters(Admits(w + 1), w);
      var a := After(Init(w, total, limit), ms).value;
      NextEntry(a, w, w);
      AssertionHoldsExactly(w, total, limit, ms, w);
      AfterSnoc(Init(w, total, limit), ms, Enter(w));
      assert After(Init(w, total, limit), ms + [Enter(w)]).value.failed;
    }
    forall ms: seq<Move> | After(Init(w, total, limit), ms).Some? && After(Init(w, total, limit), ms).value.failed
      ensures total > w && limit >= w
    {
      FailureNeedsRoom(w, total, limit, ms);
    }
  }

  /** As configured, with workers * workerTasks tasks and the test as written, only a single worker is safe. */
  lemma OneWorkerIsAdequate(workers: nat, workerTasks: nat)
    requires workers > 0 && workerTasks > 0
    ensures (exists ms: seq<Move> ::
              var a := After(Init(workerTasks, workers * workerTasks, workerTasks), ms); a.Some? && a.value.failed)
            <==> workers > 1
  {
    PoolsAreAdequateExactly(workerTasks, workers * workerTasks, workerTasks);
    hide *;
    MulMono(workerTasks, 1, workers);
  }
}
