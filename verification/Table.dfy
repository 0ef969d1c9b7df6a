/**
 * The worker's table from task ids to tasks (source/lawd/table.c).  Its comparison and its
 * hash read an int out of a 64-bit id, so it is a map on ids only as long as no two of them
 * share their low 32 bits.
 */
module Table {
  import opened Modular
  import opened Slots
  import opened Worker

  // Keys ------------------------------------------------------------------------------------

  /** law_table_equals on the eight little-endian bytes of two ids: the ints at their front. */
  predicate Equals(a: seq<nat>, b: seq<nat>)
    requires |a| == 8 && |b| == 8
  {
    Value(a[..4]) == Value(b[..4])
  }

  /** law_table_hash: some hash of sizeof(int) bytes. */
  function Hash(fnv: seq<nat> -> nat, a: seq<nat>): nat
    requires |a| == 8
  {
    fnv(a[..4])
  }

  lemma {:induction false} ValueConcat(a: seq<nat>, b: seq<nat>)
    ensures Value(a + b) == Value(a) + Slots.Pow(|a|) * Value(b)
  {
    if a == [] {
      assert a + b == b;
    } else {
      assert (a + b)[1..] == a[1..] + b;
      ValueConcat(a[1..], b);
    }
  }

  lemma FrontIsKey(a: seq<nat>)
    requires |a| == 8 && IsBytes(a)
    ensures Value(a[..4]) == Key(Value(a))
  {
    assert a == a[..4] + a[4..];
    ValueConcat(a[..4], a[4..]);
    ValueBound(a[..4]);
    assert Slots.Pow(4) == KEYS;
    Quotient(Value(a), Value(a[4..]), Value(a[..4]), KEYS);
  }

  /** Equal ids by law_table_equals are the ids with one key, and they have one hash. */
  lemma EqualsAgreesWithHash(a: seq<nat>, b: seq<nat>, fnv: seq<nat> -> nat)
    requires |a| == 8 && |b| == 8 && IsBytes(a) && IsBytes(b)
    ensures Equals(a, b) <==> Key(Value(a)) == Key(Value(b))
    ensures Equals(a, b) ==> Hash(fnv, a) == Hash(fnv, b)
  {
    FrontIsKey(a);
    FrontIsKey(b);
    if Equals(a, b) { ValueInjective(a[..4], b[..4]); }
  }

  // Operations ------------------------------------------------------------------------------

  datatype Op = Insert(id: nat, pointer: nat) | Find(id: nat) | Remove(id: nat)

  datatype Result = Success | Exists | Got(pointer: nat) | Nothing

  /** What ids are told apart by: their keys in the table, all of an id in a plain map. */
  function Project(id: nat, plain: bool): nat { if plain then id else Key(id) }

  function Step(m: map<nat, nat>, op: Op, plain: bool): (Result, map<nat, nat>) {
    var k := Project(op.id, plain);
    match op
    case Insert(_, p) => if k in m then (Exists, m) else (Success, m[k := p])
    case Find(_) => (if k in m then Got(m[k]) else Nothing, m)
    case Remove(_) => (if k in m then Got(m[k]) else Nothing, m - {k})
  }

  function Results(m: map<nat, nat>, ops: seq<Op>, plain: bool): seq<Result>
    decreases |ops|
  {
    if ops == [] then []
    else
      var (r, n) := Step(m, ops[0], plain);
      [r] + Results(n, ops[1..], plain)
  }

  /** law_table, with node allocation always succeeding. */
  class IdTable {
    var nodes: map<nat, nat>

    constructor ()
      ensures nodes == map[]
    {
      nodes := map[];
    }

    /** law_table_insert: refused exactly if an id with the same low 32 bits is in the table. */
    method Put(id: nat, pointer: nat) returns (ok: bool)
      modifies this
      ensures ok <==> id % 0x1_0000_0000 !in old(nodes)
      ensures nodes == if ok then old(nodes)[id % 0x1_0000_0000 := pointer] else old(nodes)
      ensures (if ok then Success else Exists, nodes) == Step(old(nodes), Insert(id, pointer), false)
      ensures |nodes| == |old(nodes)| + if ok then 1 else 0
    {
      ok := Key(id) !in nodes;
      if ok { nodes := nodes[Key(id) := pointer]; }
    }

    /** law_table_lookup: the pointer stored for the id's low 32 bits. */
    method Get(id: nat) returns (pointer: Option<nat>)
      ensures pointer == if id % 0x1_0000_0000 in nodes then Some(nodes[id % 0x1_0000_0000]) else None
      ensures (if pointer.Some? then Got(pointer.value) else Nothing, nodes) == Step(nodes, Find(id), false)
    {
      pointer := if Key(id) in nodes then Some(nodes[Key(id)]) else None;
    }

    /** law_table_remove: what a lookup finds is returned, and gone. */
    method Take(id: nat) returns (pointer: Option<nat>)
      modifies this
      ensures pointer == if id % 0x1_0000_0000 in old(nodes) then Some(old(nodes)[id % 0x1_0000_0000]) else None
      ensures nodes == old(nodes) - {id % 0x1_0000_0000}
      ensures (if pointer.Some? then Got(pointer.value) else Nothing, nodes) == Step(old(nodes), Remove(id), false)
      ensures |nodes| == |old(nodes)| - if pointer.Some? then 1 else 0
    {
      if Key(id) !in nodes {
        assert nodes - {Key(id)} == nodes;
        return None;
      }
      pointer := Some(nodes[Key(id)]);
      nodes := nodes - {Key(id)};
    }
  }

  // What a plain map answers ----------------------------------------------------------------

  /** What an id is bound to after one more operation. */
  function Rebound(was: Option<nat>, op: Op, id: nat): Option<nat> {
    if op.id != id then was
    else match op
      case Insert(_, p) => if was.Some? then was else Some(p)
      case Find(_) => was
      case Remove(_) => None
  }

  /** What an id is bound to after a history: the first pointer inserted for it since it was last removed. */
  function Bound(was: Option<nat>, ops: seq<Op>, id: nat): Option<nat>
    decreases |ops|
  {
    if ops == [] then was else Bound(Rebound(was, ops[0], id), ops[1..], id)
  }

  /** The result an operation must have when its id is bound to what was. */
  function Expected(was: Option<nat>, op: Op): Result {
    match op
    case Insert(_, _) => if was.Some? then Exists else Success
    case _ => if was.Some? then Got(was.value) else Nothing
  }

  function Binding(m: map<nat, nat>, id: nat): Option<nat> { if id in m then Some(m[id]) else None }

  /** Every result of every history on a plain map is the one its id's own history calls for. */
  lemma {:induction false} PlainResults(m: map<nat, nat>, ops: seq<Op>, k: nat)
    requires k < |ops|
    ensures |Results(m, ops, true)| == |ops|
    ensures Results(m, ops, true)[k] == Expected(Bound(Binding(m, ops[k].id), ops[..k], ops[k].id), ops[k])
    decreases |ops|
  {
    var n := Step(m, ops[0], true).1;
    if k > 0 {
      PlainResults(n, ops[1..], k - 1);
      assert Binding(n, ops[k].id) == Rebound(Binding(m, ops[k].id), ops[0], ops[k].id);
      assert ops[..k][1..] == ops[1..][..k - 1];
    } else if |ops| > 1 {
      PlainResults(n, ops[1..], 0);
    }
  }

  // Refinement ------------------------------------------------------------------------------

  ghost predicate NoClash(ids: set<nat>) {
    forall a, b :: a in ids && b in ids && Key(a) == Key(b) ==> a == b
  }

  predicate Uses(ops: seq<Op>, ids: set<nat>) { forall i :: 0 <= i < |ops| ==> ops[i].id in ids }

  /** The table m stands for the plain map p. */
  ghost predicate Stands(m: map<nat, nat>, p: map<nat, nat>, ids: set<nat>) {
    && p.Keys <= ids
    && (forall id :: id in ids ==> (id in p <==> Key(id) in m) && (id in p ==> p[id] == m[Key(id)]))
  }

  lemma {:induction false} Simulates(m: map<nat, nat>, p: map<nat, nat>, ids: set<nat>, ops: seq<Op>)
    requires NoClash(ids) && Stands(m, p, ids) && Uses(ops, ids)
    ensures Results(m, ops, false) == Results(p, ops, true)
    decreases |ops|
  {
    if ops != [] {
      assert ops[0].id in ids;
      var (r, n) := Step(m, ops[0], false);
      var (s, q) := Step(p, ops[0], true);
      assert r == s && Stands(n, q, ids);
      Simulates(n, q, ids, ops[1..]);
    }
  }

  lemma Clashing(a: nat, b: nat)
    requires a != b && Key(a) == Key(b)
    ensures Results(map[], [Insert(a, 0), Find(b)], false) != Results(map[], [Insert(a, 0), Find(b)], true)
  {
    var ops := [Insert(a, 0), Find(b)];
    var m := map[Key(a) := 0];
    assert Step(map[], ops[0], false) == (Success, m) && Step(map[], ops[0], true) == (Success, map[a := 0]);
    assert ops[1..] == [Find(b)];
    assert Results(m, [Find(b)], false)[0] == Got(0);
    assert Results(map[a := 0], [Find(b)], true)[0] == Nothing;
    assert Results(map[], ops, false)[1] == Got(0);
  }

  /**
   * Over a set of ids, every history of inserts, lookups and removes has the results of a
   * plain map from ids to tasks if and only if no two of the ids share a key.
   */
  lemma TableRefinesMapExactly(ids: set<nat>)
    ensures NoClash(ids) <==>
              forall ops: seq<Op> :: Uses(ops, ids) ==> Results(map[], ops, false) == Results(map[], ops, true)
  {
    if NoClash(ids) {
      forall ops: seq<Op> | Uses(ops, ids) ensures Results(map[], ops, false) == Results(map[], ops, true) {
        Simulates(map[], map[], ids, ops);
      }
    } else {
      var a, b :| a in ids && b in ids && Key(a) == Key(b) && a != b;
      Clashing(a, b);
      assert Uses([Insert(a, 0), Find(b)], ids);
    }
  }

  /** Ids in a window of 2^32 consecutive values never clash. */
  lemma WindowsDoNotClash(ids: set<nat>, lo: nat)
    requires forall id :: id in ids ==> lo <= id < lo + KEYS
    ensures NoClash(ids)
  {
  }

  // Size ------------------------------------------------------------------------------------

  /** The capacity law_worker_create asks for, and law_table_max_size. */
  function Capacity(workerTasks: nat): nat { workerTasks * 4 / 3 + 2 }

  function MaxSize(capacity: nat): int { capacity * 3 / 4 - 1 }

  /** Exactly worker_tasks entries fit without a resize, and no smaller capacity holds them. */
  lemma CapacityIsAdequate(workerTasks: nat, capacity: nat)
    ensures 3 * (Capacity(workerTasks) - 2) <= 4 * workerTasks < 3 * (Capacity(workerTasks) - 1)
    ensures 4 * (MaxSize(capacity) + 1) <= 3 * capacity < 4 * (MaxSize(capacity) + 2)
    ensures MaxSize(Capacity(workerTasks)) == workerTasks
    ensures MaxSize(capacity) >= workerTasks <==> capacity >= Capacity(workerTasks)
  {
    assert workerTasks == 3 * (workerTasks / 3) + workerTasks % 3;
  }
}
