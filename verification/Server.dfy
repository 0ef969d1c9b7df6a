/**
 * The accept thread and the workers as one state machine.  Every step is one atomic
 * action of one thread; any interleaving of steps is a run (source/lawd/server.c).
 * Tasks enter only through the accept thread.  The field loc is history.
 */
module Server {
  import opened Pigeonhole
  import opened Sequences
  import opened Worker
  import opened StaleTimers

  datatype Local = Local(table: map<nat, nat>, ready: seq<nat>, timer: multiset<Entry>, hand: Option<nat>)

  datatype Place = InPool | InServer | InQueue(i: nat) | InHand(i: nat) | InTable(i: nat)

  /** Where law_server_spin and law_server_accept are. */
  datatype Acceptor = Listening | Checked | Popped(t: nat) | Armed(t: nat) | Draining | Stopped(sent: nat)

  datatype Sys = Sys(
    tasks: seq<Task>, locals: seq<Local>, queues: seq<seq<nat>>, pool: seq<nat>, acc: Acceptor,
    spawned: nat, limit: nat, exited: set<nat>, loc: seq<Place>)

  /** The state as worker i's steps see it. */
  function At(s: Sys, i: nat): State
    requires i < |s.locals|
  {
    var l := s.locals[i];
    State(s.tasks, l.table, l.ready, l.timer, l.hand)
  }

  function Put(s: Sys, i: nat, w: State, loc: seq<Place>): Sys
    requires i < |s.locals|
  {
    s.(tasks := w.tasks, locals := s.locals[i := Local(w.table, w.ready, w.timer, w.hand)], loc := loc)
  }

  /** Task t is where place p says, read off the structures themselves. */
  predicate Lies(s: Sys, t: nat, p: Place) {
    match p
    case InPool => t in s.pool
    case InServer => s.acc == Popped(t) || s.acc == Armed(t)
    case InQueue(i) => i < |s.queues| && t in s.queues[i]
    case InHand(i) => i < |s.locals| && s.locals[i].hand == Some(t)
    case InTable(i) => i < |s.locals| && Resident(At(s, i), t)
  }

  // Invariant -----------------------------------------------------------------

  predicate Shape(s: Sys) { |s.loc| == |s.tasks| && |s.queues| == |s.locals| }

  ghost predicate Locals(s: Sys) {
    forall i: nat :: i < |s.locals| ==> Inv(At(s, i)) && Dated(At(s, i))
  }

  /** Each task is in exactly one place, and every list holds task indices without repetition. */
  ghost predicate Places(s: Sys) {
    && (forall t: nat, p :: Lies(s, t, p) ==> t < |s.loc| && s.loc[t] == p)
    && (forall t: nat :: t < |s.loc| ==> Lies(s, t, s.loc[t]))
    && Distinct(s.pool)
    && (forall i: nat :: i < |s.queues| ==> Distinct(s.queues[i]))
  }

  predicate Live(s: Sys, t: nat) {
    t < |s.loc| && !s.loc[t].InPool? && !(s.loc[t].InServer? && s.acc.Popped?)
  }

  /** A task set up by the accept thread that no table has held yet. */
  predicate Waiting(s: Sys, t: nat) {
    t < |s.loc| && t < |s.tasks| && Live(s, t) && !s.loc[t].InTable? && s.tasks[t].mode.Spawned?
  }

  ghost predicate Modes(s: Sys) {
    forall t: nat :: t < |s.loc| && t < |s.tasks| && !s.loc[t].InTable? ==>
      && !s.tasks[t].mark && s.tasks[t].events == []
      && (Live(s, t) && !s.loc[t].InHand? ==> s.tasks[t].mode.Spawned?)
  }

  ghost predicate Lives(s: Sys) {
    && (forall t: nat :: Live(s, t) && t < |s.tasks| ==> s.tasks[t].life <= s.spawned && Numbered(s.tasks[t]))
    && (forall t: nat, u: nat :: Live(s, t) && Live(s, u) && t < |s.tasks| && u < |s.tasks| && t != u ==>
          s.tasks[t].life != s.tasks[u].life)
  }

  /** No timer entry stems from a life that no table has held yet. */
  ghost predicate Unheard(s: Sys) {
    forall i: nat, e :: i < |s.locals| && e in s.locals[i].timer ==>
      && e.life <= s.spawned
      && (forall t: nat :: Waiting(s, t) ==> s.tasks[t].life != e.life)
  }

  predicate Holds(s: Sys, i: nat) {
    i < |s.locals| && s.locals[i].hand.Some? && s.locals[i].hand.value < |s.tasks|
  }

  ghost predicate Limits(s: Sys) {
    forall i: nat :: i < |s.locals| ==>
      && |s.locals[i].table| <= s.limit + 1
      && (Holds(s, i) && s.tasks[s.locals[i].hand.value].mode.Spawned? ==> |s.locals[i].table| <= s.limit)
  }

  ghost predicate Phases(s: Sys) {
    && (s.acc.Checked? ==> s.pool != [])
    && (s.acc.Stopped? ==> |s.pool| == |s.tasks|)
    && (s.exited != {} ==> s.acc.Stopped?)
  }

  ghost predicate SysInv(s: Sys) {
    && Shape(s) && Locals(s) && Places(s) && Linked(s.tasks, s.pool)
    && Modes(s) && Lives(s) && Unheard(s) && Limits(s) && Phases(s)
  }

  // Steps -----------------------------------------------------------------------

  datatype Step =
    | Check                       // the pool is not empty
    | Refuse                      // accept or fcntl failed
    | PoolPop
    | SetUp(version: nat)         // law_task_setup with a fresh id and a random version
    | Push(i: nat)                // law_task_queue_push to worker i
    | Stop                        // the accept loop is left
    | Full                        // the pool is seen full
    | Post                        // one SHUTDOWN message is sent
    | Take(i: nat)                // law_task_queue_pop
    | InsertTask(i: nat)          // law_table_insert and law_ready_set_push
    | Fire(i: nat, e: Entry)      // one round of the timer loop
    | Deliver(i: nat, id: nat, ev: Event)  // one round of the event or message loop
    | RunTask(i: nat, o: Outcome) // one round of law_worker_dispatch, up to the table removal
    | GiveBack(i: nat)            // law_task_pool_push
    | Exit(i: nat)                // the worker leaves its loop after SHUTDOWN

  predicate Free(s: Sys, i: nat) { i < |s.locals| && i !in s.exited && s.locals[i].hand.None? }

  predicate Holding(s: Sys, i: nat) {
    i !in s.exited && Holds(s, i)
  }

  /** When a thread can take the step.  That the indices it follows are in range is part of it. */
  ghost predicate Enabled(s: Sys, a: Step) {
    match a
    case Check => s.acc.Listening? && s.pool != []
    case Refuse => s.acc.Checked?
    case PoolPop => s.acc.Checked? && s.pool != [] && s.pool[0] < |s.tasks|
    case SetUp(version) => s.acc.Popped? && s.acc.t < |s.tasks| && version < VERSIONS
    case Push(i) => s.acc.Armed? && s.acc.t < |s.tasks| && i < |s.queues|
    case Stop => s.acc.Listening?
    case Full => s.acc.Draining? && |s.pool| == |s.tasks|
    case Post => s.acc.Stopped? && s.acc.sent < |s.locals|
    case Take(i) => Free(s, i) && i < |s.queues| && s.queues[i] != [] && |s.locals[i].table| <= s.limit
    case InsertTask(i) => Holding(s, i) && CanInsert(At(s, i))
    case Fire(i, e) => Free(s, i) && e in s.locals[i].timer && Indexed(At(s, i))
    case Deliver(i, id, ev) => Free(s, i) && Indexed(At(s, i))
    case RunTask(i, o) =>
      && Free(s, i) && s.locals[i].ready != [] && s.locals[i].ready[0] < |s.tasks|
      && o != Return(SUSPENDED_SIGNAL)
    case GiveBack(i) => Holding(s, i) && !s.tasks[s.locals[i].hand.value].mode.Spawned?
    case Exit(i) => Free(s, i) && s.acc.Stopped? && i < s.acc.sent && s.locals[i].ready == []
  }

  function Move(loc: seq<Place>, t: nat, p: Place): seq<Place> { if t < |loc| then loc[t := p] else loc }

  function Apply(s: Sys, a: Step): Sys
    requires Shape(s) && Enabled(s, a)
  {
    match a
    case Check => s.(acc := Checked)
    case Refuse => s.(acc := Listening)
    case PoolPop =>
      var t := s.pool[0];
      s.(tasks := s.tasks[t := s.tasks[t].(next := NIL)], pool := s.pool[1..], acc := Popped(t),
         loc := Move(s.loc, t, InServer))
    case SetUp(version) =>
      var t, life := s.acc.t, s.spawned + 1;
      s.(tasks := s.tasks[t := s.tasks[t].(id := life % IDS, version := version, mode := Spawned, life := life, runs := 0)],
         acc := Armed(t), spawned := life)
    case Push(i) =>
      s.(queues := s.queues[i := s.queues[i] + [s.acc.t]], acc := Listening, loc := Move(s.loc, s.acc.t, InQueue(i)))
    case Stop => s.(acc := Draining)
    case Full => s.(acc := Stopped(0))
    case Post => s.(acc := Stopped(s.acc.sent + 1))
    case Take(i) =>
      var t := s.queues[i][0];
      s.(queues := s.queues[i := s.queues[i][1..]], locals := s.locals[i := s.locals[i].(hand := Some(t))],
         loc := Move(s.loc, t, InHand(i)))
    case InsertTask(i) => Put(s, i, Insert(At(s, i)), Move(s.loc, s.locals[i].hand.value, InTable(i)))
    case Fire(i, e) => Put(s, i, TimerPop(At(s, i), e), s.loc)
    case Deliver(i, id, ev) => Put(s, i, NotifyId(At(s, i), id, ev), s.loc)
    case RunTask(i, o) =>
      Put(s, i, Dispatch(At(s, i), o), if o.Return? then Move(s.loc, s.locals[i].ready[0], InHand(i)) else s.loc)
    case GiveBack(i) =>
      var t := s.locals[i].hand.value;
      Put(s, i, Give(At(s, i), Head(s.pool)), Move(s.loc, t, InPool)).(pool := [t] + s.pool)
    case Exit(i) => s.(exited := s.exited + {i})
  }

  // Frames ------------------------------------------------------------------------

  /** Writing a task a worker does not own changes nothing the worker relies on. */
  lemma Foreign(w: State, t: nat, r: Task)
    requires Inv(w) && Dated(w) && t < |w.tasks| && !Resident(w, t) && w.hand != Some(t)
    ensures Inv(w.(tasks := w.tasks[t := r])) && Dated(w.(tasks := w.tasks[t := r]))
    ensures forall u: nat :: Resident(w.(tasks := w.tasks[t := r]), u) <==> Resident(w, u)
  {
    var w' := w.(tasks := w.tasks[t := r]);
    forall u: nat ensures Resident(w', u) <==> Resident(w, u) {}
    LinkedFrame(w.tasks, w.ready, t, r);
  }

  /** The other workers' states across a step that writes task t. */
  lemma OtherLocals(s: Sys, s': Sys, t: nat, r: Task, j: nat)
    requires Locals(s) && t < |s.tasks| && s'.tasks == s.tasks[t := r]
    requires j < |s.locals| && j < |s'.locals| && s'.locals[j] == s.locals[j]
    requires !Resident(At(s, j), t) && s.locals[j].hand != Some(t)
    ensures Inv(At(s', j)) && Dated(At(s', j))
    ensures forall u: nat :: Resident(At(s', j), u) <==> Resident(At(s, j), u)
  {
    Foreign(At(s, j), t, r);
    assert At(s', j) == At(s, j).(tasks := s.tasks[t := r]);
  }

  /** A task not in table or hand of worker j, by its place. */
  lemma NotOwned(s: Sys, t: nat, j: nat)
    requires Places(s) && j < |s.locals| && t < |s.loc| && s.loc[t] != InTable(j) && s.loc[t] != InHand(j)
    ensures !Resident(At(s, j), t) && s.locals[j].hand != Some(t)
  {
    assert Lies(s, t, InTable(j)) <==> Resident(At(s, j), t);
    assert Lies(s, t, InHand(j)) <==> s.locals[j].hand == Some(t);
  }

  /** Moving one task from its place to place q. */
  lemma PlacesMove(s: Sys, s': Sys, t: nat, q: Place)
    requires Places(s) && t < |s.loc| && s'.loc == s.loc[t := q]
    requires Distinct(s'.pool) && (forall i: nat :: i < |s'.queues| ==> Distinct(s'.queues[i]))
    requires forall u: nat, p :: u != t ==> (Lies(s', u, p) <==> Lies(s, u, p))
    requires forall p :: Lies(s', t, p) <==> p == q
    ensures Places(s')
  {
  }

  // Acceptor steps ------------------------------------------------------------------

  lemma Unmoved(s: Sys, s': Sys)
    requires SysInv(s) && s' == s.(acc := s'.acc, exited := s'.exited) && Phases(s')
    requires !s.acc.Popped? && !s.acc.Armed? && !s'.acc.Popped? && !s'.acc.Armed?
    ensures SysInv(s')
  {
    hide Inv, Dated, Distinct, Linked, Resident;
    assert forall i: nat :: i < |s.locals| ==> At(s', i) == At(s, i);
    assert forall t: nat, p :: Lies(s', t, p) <==> Lies(s, t, p);
    assert forall t: nat :: Live(s', t) <==> Live(s, t);
  }

  lemma AcceptorStep(s: Sys, a: Step)
    requires SysInv(s) && Enabled(s, a)
    requires a.Check? || a.Refuse? || a.Stop? || a.Full? || a.Post? || a.Exit?
    ensures SysInv(Apply(s, a))
  {
    hide Inv, Dated, Distinct, Linked, Resident, CanInsert, Lies, Modes, Lives, Unheard, Limits, Places, Locals;
    if a.Exit? {
      ExitStep(s, a.i);
    } else {
      Unmoved(s, Apply(s, a));
    }
  }

  lemma ExitStep(s: Sys, i: nat)
    requires SysInv(s) && Enabled(s, Exit(i))
    ensures SysInv(Apply(s, Exit(i)))
  {
    hide Inv, Dated, Distinct, Linked, Resident, CanInsert, Lies, Modes, Lives, Unheard, Limits, Places, Locals;
    Unmoved(s, s.(exited := s.exited + {i}));
  }

  lemma PoolPopStep(s: Sys)
    requires SysInv(s) && Enabled(s, PoolPop)
    ensures SysInv(Apply(s, PoolPop))
  {
    hide Inv, Dated, CanInsert, Resident;
    var s', t := Apply(s, PoolPop), s.pool[0];
    var r := s.tasks[t].(next := NIL);
    assert Lies(s, t, InPool);
    LinkedPop(s.tasks, s.pool, r);
    forall j: nat | j < |s.locals| ensures Inv(At(s', j)) && Dated(At(s', j))
      && (forall u: nat :: Resident(At(s', j), u) <==> Resident(At(s, j), u))
    {
      NotOwned(s, t, j);
      OtherLocals(s, s', t, r, j);
    }
    assert forall u: nat :: u in s.pool <==> u == t || u in s.pool[1..];
    forall p ensures Lies(s', t, p) <==> p == InServer {
      assert Lies(s, t, p) ==> p == s.loc[t];
    }
    PlacesMove(s, s', t, InServer);
  }

  lemma SetUpStep(s: Sys, version: nat)
    requires SysInv(s) && Enabled(s, SetUp(version))
    ensures SysInv(Apply(s, SetUp(version)))
  {
    hide Inv, Dated, CanInsert, Resident;
    var s', t := Apply(s, SetUp(version)), s.acc.t;
    var r := s'.tasks[t];
    assert Lies(s, t, InServer);
    assert !Lies(s, t, InPool);
    LinkedFrame(s.tasks, s.pool, t, r);
    forall j: nat | j < |s.locals| ensures Inv(At(s', j)) && Dated(At(s', j))
      && (forall u: nat :: Resident(At(s', j), u) <==> Resident(At(s, j), u))
    {
      NotOwned(s, t, j);
      OtherLocals(s, s', t, r, j);
    }
    forall p ensures Lies(s', t, p) <==> p == InServer {
      assert Lies(s, t, p) ==> p == s.loc[t];
    }
    PlacesMove(s, s', t, InServer);
    forall i: nat | i < |s.locals| ensures s'.locals[i].hand != Some(t) { NotOwned(s, t, i); }
  }

  lemma PushStep(s: Sys, i: nat)
    requires SysInv(s) && Enabled(s, Push(i))
    ensures SysInv(Apply(s, Push(i)))
  {
    hide Inv, Dated, CanInsert, Resident, Linked;
    var s', t := Apply(s, Push(i)), s.acc.t;
    assert Lies(s, t, InServer) && !Lies(s, t, InQueue(i));
    assert forall j: nat :: j < |s.locals| ==> At(s', j) == At(s, j);
    forall p ensures Lies(s', t, p) <==> p == InQueue(i) {
      assert Lies(s, t, p) ==> p == s.loc[t];
    }
    PlacesMove(s, s', t, InQueue(i));
  }

  lemma TakeLocals(s: Sys, i: nat)
    requires SysInv(s) && Enabled(s, Take(i)) && s.queues[i][0] < |s.loc| && s.loc[s.queues[i][0]] == InQueue(i)
    requires !Resident(At(s, i), s.queues[i][0])
    ensures var s' := Apply(s, Take(i));
            && Locals(s')
            && forall j: nat, u: nat :: j < |s.locals| ==> (Resident(At(s', j), u) <==> Resident(At(s, j), u))
  {
    hide Dated, CanInsert, Linked, Inv, Places, Lives, Unheard, Limits, Phases, Resident;
    var s' := Apply(s, Take(i));
    forall j: nat | j < |s.locals| ensures Inv(At(s', j)) && Dated(At(s', j))
      && (forall u: nat :: Resident(At(s', j), u) <==> Resident(At(s, j), u))
    {
      assert At(s', j) == At(s, j).(hand := At(s', j).hand);
      HandFree(At(s, j), At(s', j).hand);
    }
  }

  lemma TakeStep(s: Sys, i: nat)
    requires SysInv(s) && Enabled(s, Take(i))
    ensures SysInv(Apply(s, Take(i)))
  {
    hide Dated, CanInsert, Linked, Inv, Resident;
    var s', t := Apply(s, Take(i)), s.queues[i][0];
    PlaceOf(s, t, InQueue(i));
    NotOwned(s, t, i);
    TakeLocals(s, i);
    var q := s.queues[i];
    assert forall u: nat :: u in q <==> u == t || u in q[1..];
    forall p ensures Lies(s', t, p) <==> p == InHand(i) {
      assert Lies(s, t, p) ==> p == s.loc[t];
    }
    PlacesMove(s, s', t, InHand(i));
  }

  lemma HandFree(w: State, h: Option<nat>)
    requires Inv(w) && Dated(w)
    requires h != w.hand ==> h.Some? && h.value < |w.tasks| && !Resident(w, h.value) && !w.tasks[h.value].mark
    ensures Inv(w.(hand := h)) && Dated(w.(hand := h))
    ensures forall u: nat :: Resident(w.(hand := h), u) <==> Resident(w, u)
  {
    var w' := w.(hand := h);
    assert forall u: nat :: Resident(w', u) <==> Resident(w, u);
  }

  // Worker steps ----------------------------------------------------------------------

  /** A worker's step writes one task that it owns; everyone else keeps what they had. */
  lemma LocalsAfter(s: Sys, s': Sys, i: nat, t: nat)
    requires SysInv(s) && i < |s.locals| && |s'.locals| == |s.locals|
    requires t < |s.tasks| && t < |s'.tasks| && s'.tasks == s.tasks[t := s'.tasks[t]]
    requires s.loc[t] == InTable(i) || s.loc[t] == InHand(i)
    requires forall j: nat :: j < |s.locals| && j != i ==> s'.locals[j] == s.locals[j]
    requires Inv(At(s', i)) && Dated(At(s', i))
    ensures Locals(s')
    ensures forall j: nat, u: nat :: j < |s.locals| && j != i ==> (Resident(At(s', j), u) <==> Resident(At(s, j), u))
    ensures t !in s.pool && Linked(s'.tasks, s.pool)
  {
    hide Inv, Dated, Resident, Modes, Lives, Unheard, Limits, Phases;
    assert !Lies(s, t, InPool);
    LinkedFrame(s.tasks, s.pool, t, s'.tasks[t]);
    forall j: nat | j < |s.locals| && j != i
      ensures Inv(At(s', j)) && Dated(At(s', j))
      ensures forall u: nat :: Resident(At(s', j), u) <==> Resident(At(s, j), u)
    {
      NotOwned(s, t, j);
      OtherLocals(s, s', t, s'.tasks[t], j);
    }
  }

  lemma PlaceOf(s: Sys, t: nat, p: Place)
    requires Shape(s) && Places(s) && Lies(s, t, p)
    ensures t < |s.loc| && t < |s.tasks| && s.loc[t] == p
    ensures forall q :: Lies(s, t, q) <==> q == p
  {
  }

  lemma InsertStep(s: Sys, i: nat)
    requires SysInv(s) && Enabled(s, InsertTask(i))
    ensures SysInv(Apply(s, InsertTask(i)))
  {
    hide Awakable, ReadyOk, Indexed, AllNumbered, AllUnique, AllLag, Linked, Distinct;
    var s', t := Apply(s, InsertTask(i)), s.locals[i].hand.value;
    var w, w' := At(s, i), At(s', i);
    PlaceOf(s, t, InHand(i));
    assert Live(s, t) && Waiting(s, t);
    InsertKeepsInv(w);
    InsertKeepsDated(w);
    LocalsAfter(s, s', i, t);
    forall p ensures Lies(s', t, p) <==> p == InTable(i) {
      assert Lies(s, t, p) ==> p == s.loc[t];
    }
    PlacesMove(s, s', t, InTable(i));
    InsertRest(s, i);
  }

  lemma InsertRest(s: Sys, i: nat)
    requires SysInv(s) && Enabled(s, InsertTask(i))
    ensures var s' := Apply(s, InsertTask(i)); Modes(s') && Lives(s') && Unheard(s') && Limits(s') && Phases(s')
  {
    hide Inv, Dated, Resident, Linked, Distinct;
    var s', t := Apply(s, InsertTask(i)), s.locals[i].hand.value;
    PlaceOf(s, t, InHand(i));
    forall j: nat | j < |s.locals| && j != i ensures Holds(s', j) ==> s'.locals[j].hand.value != t {
      NotOwned(s, t, j);
    }
    assert |s.locals[i].table[Key(s.tasks[t].id) := t]| <= |s.locals[i].table| + 1;
  }

  /** A step of worker i that writes at most one resident task and keeps its identity and mode. */
  ghost predicate Quiet(w: State, w': State, t: nat) {
    && w'.table == w.table && w'.hand == w.hand && (forall e :: e in w'.timer ==> e in w.timer)
    && |w'.tasks| == |w.tasks|
    && (w'.tasks == w.tasks ||
        (Resident(w, t) && w'.tasks == w.tasks[t := w'.tasks[t]] &&
         w'.tasks[t].id == w.tasks[t].id && w'.tasks[t].life == w.tasks[t].life &&
         w'.tasks[t].version == w.tasks[t].version && w'.tasks[t].mode == w.tasks[t].mode))
  }

  lemma QuietLocals(s: Sys, i: nat, w': State, t: nat)
    requires SysInv(s) && i < |s.locals| && Quiet(At(s, i), w', t)
    requires Inv(w') && Dated(w')
    ensures var s' := Put(s, i, w', s.loc);
            && Locals(s') && Linked(s'.tasks, s.pool)
            && forall j: nat, u: nat :: j < |s.locals| ==> (Resident(At(s', j), u) <==> Resident(At(s, j), u))
  {
    hide Inv, Dated, Linked, Distinct, Modes, Lives, Unheard, Limits, Phases;
    var s' := Put(s, i, w', s.loc);
    assert At(s', i) == w';
    if w'.tasks == s.tasks {
      assert forall j: nat :: j < |s.locals| && j != i ==> At(s', j) == At(s, j);
    } else {
      PlaceOf(s, t, InTable(i));
      LocalsAfter(s, s', i, t);
    }
    forall u: nat ensures Resident(w', u) <==> Resident(At(s, i), u) {}
  }

  lemma QuietStep(s: Sys, i: nat, w': State, t: nat)
    requires SysInv(s) && i < |s.locals| && Quiet(At(s, i), w', t)
    requires Inv(w') && Dated(w')
    ensures SysInv(Put(s, i, w', s.loc))
  {
    hide Inv, Dated, Linked, Distinct, Resident;
    var s' := Put(s, i, w', s.loc);
    QuietLocals(s, i, w', t);
    assert forall u: nat, p :: Lies(s', u, p) <==> Lies(s, u, p);
    if w'.tasks != s.tasks { PlaceOf(s, t, InTable(i)); }
    assert forall u: nat :: Live(s', u) <==> Live(s, u);
    assert forall u: nat :: Waiting(s', u) <==> Waiting(s, u);
  }

  lemma NotifyIsQuiet(w: State, id: nat, ev: Event)
    requires Inv(w)
    ensures Lookup(w, id).Some? ==> Quiet(w, NotifyId(w, id, ev), Lookup(w, id).value)
    ensures Lookup(w, id).None? ==> NotifyId(w, id, ev) == w
  {
    if Lookup(w, id).Some? {
      var t, w' := Lookup(w, id).value, NotifyId(w, id, ev);
      assert Resident(w, t);
      assert w'.tasks == w.tasks[t := w'.tasks[t]];
    }
  }

  lemma FireIsQuiet(w: State, e: Entry)
    requires Inv(w)
    ensures Quiet(w, TimerPop(w, e), if Lookup(w, e.id).Some? then Lookup(w, e.id).value else 0)
  {
    var w' := TimerPop(w, e);
    assert forall x :: x in w'.timer ==> x in w.timer;
    if Fires(w, e) {
      var t := Lookup(w, e.id).value;
      assert Resident(w, t);
      assert w'.tasks == w.tasks[t := w'.tasks[t]];
    }
  }

  lemma FireStep(s: Sys, i: nat, e: Entry)
    requires SysInv(s) && Enabled(s, Fire(i, e))
    ensures SysInv(Apply(s, Fire(i, e)))
  {
    hide Dated, Linked, Distinct, Resident, Quiet, TimerPop, Places, Modes, Lives, Unheard, Limits, Phases, Inv;
    assert Inv(At(s, i)) && Dated(At(s, i));
    FireIsIndexed(At(s, i));
    TimerPopKeepsInv(At(s, i), e);
    TimerPopKeepsDated(At(s, i), e);
    FireIsQuiet(At(s, i), e);
    var l := Lookup(At(s, i), e.id);
    QuietStep(s, i, TimerPop(At(s, i), e), if l.Some? then l.value else 0);
  }

  lemma FireIsIndexed(w: State)
    requires Inv(w)
    ensures Indexed(w)
  {
  }

  lemma DeliverStep(s: Sys, i: nat, id: nat, ev: Event)
    requires SysInv(s) && Enabled(s, Deliver(i, id, ev))
    ensures SysInv(Apply(s, Deliver(i, id, ev)))
  {
    hide Dated, Linked, Distinct, Resident, Quiet, NotifyId, Places, Modes, Lives, Unheard, Limits, Phases, Inv;
    assert Inv(At(s, i)) && Dated(At(s, i));
    FireIsIndexed(At(s, i));
    NotifyIsQuiet(At(s, i), id, ev);
    var l := Lookup(At(s, i), id);
    if l.Some? {
      NotifyIdKeepsInv(At(s, i), id, ev);
      NotifyIdKeepsDated(At(s, i), id, ev);
      QuietStep(s, i, NotifyId(At(s, i), id, ev), l.value);
    } else {
      assert Apply(s, Deliver(i, id, ev)) == s;
    }
  }

  lemma NotifyIdKeepsDated(w: State, id: nat, ev: Event)
    requires Inv(w) && Dated(w)
    ensures Indexed(w) && Dated(NotifyId(w, id, ev))
  {
    if Lookup(w, id).Some? { NotifyKeepsDated(w, Lookup(w, id).value, ev); }
  }

  lemma NoTwins(s: Sys, i: nat)
    requires SysInv(s) && i < |s.locals|
    ensures OneLife(At(s, i))
  {
  }

  lemma RunPlaces(s: Sys, i: nat, o: Outcome)
    requires SysInv(s) && Enabled(s, RunTask(i, o))
    requires var s', t := Apply(s, RunTask(i, o)), s.locals[i].ready[0];
             && s.loc[t] == InTable(i)
             && (forall j: nat, u: nat :: j < |s.locals| && j != i ==> (Resident(At(s', j), u) <==> Resident(At(s, j), u)))
             && (forall u: nat :: Resident(At(s', i), u) <==> Resident(At(s, i), u) && (o.Wait? || u != t))
    ensures Places(Apply(s, RunTask(i, o)))
  {
    hide Inv, Dated, Linked, Distinct, Resident, Dispatch;
    var s', t := Apply(s, RunTask(i, o)), s.locals[i].ready[0];
    DispatchHand(At(s, i), o);
    var q := s'.loc[t];
    forall u: nat, p | u != t ensures Lies(s', u, p) <==> Lies(s, u, p) {}
    forall p ensures Lies(s', t, p) <==> p == q {
      assert Lies(s, t, p) ==> p == s.loc[t];
      assert Lies(s, t, InTable(i));
    }
    PlacesMove(s, s', t, q);
  }

  lemma DispatchHand(w: State, o: Outcome)
    requires w.ready != [] && w.ready[0] < |w.tasks| && o != Return(SUSPENDED_SIGNAL)
    ensures Dispatch(w, o).hand == if o.Return? then Some(w.ready[0]) else w.hand
    ensures |Dispatch(w, o).tasks| == |w.tasks|
  {
  }

  lemma RunStep(s: Sys, i: nat, o: Outcome)
    requires SysInv(s) && Enabled(s, RunTask(i, o))
    ensures SysInv(Apply(s, RunTask(i, o)))
  {
    hide Awakable, AllNumbered, AllUnique, AllLag, Linked, Distinct, Places, Modes, Lives, Unheard, Limits, Phases;
    var w, t := At(s, i), s.locals[i].ready[0];
    var s' := Apply(s, RunTask(i, o));
    assert Resident(w, t);
    PlaceOf(s, t, InTable(i)) by { assert Lies(s, t, InTable(i)); }
    NoTwins(s, i);
    DispatchKeepsInv(w, o);
    DispatchKeepsDated(w, o);
    DispatchResidents(w, o);
    assert At(s', i) == Dispatch(w, o);
    LocalsAfter(s, s', i, t);
    RunPlaces(s, i, o);
    RunRest(s, i, o);
  }

  lemma RunLives(s: Sys, i: nat, o: Outcome)
    requires SysInv(s) && Enabled(s, RunTask(i, o)) && s.loc[s.locals[i].ready[0]] == InTable(i)
    ensures var s' := Apply(s, RunTask(i, o)); Lives(s') && Unheard(s')
  {
    hide Inv, Dated, Resident, Linked, Distinct, Places, Limits, Phases;
    assert Live(s, s.locals[i].ready[0]);
  }

  lemma RunModes(s: Sys, i: nat, o: Outcome)
    requires SysInv(s) && Enabled(s, RunTask(i, o)) && s.loc[s.locals[i].ready[0]] == InTable(i)
    ensures var s' := Apply(s, RunTask(i, o)); Modes(s') && Phases(s')
  {
    hide Inv, Dated, Resident, Linked, Distinct, Places, Lives, Unheard, Limits;
  }

  lemma RunLimits(s: Sys, i: nat, o: Outcome)
    requires SysInv(s) && Enabled(s, RunTask(i, o)) && s.loc[s.locals[i].ready[0]] == InTable(i)
    ensures Limits(Apply(s, RunTask(i, o)))
  {
    hide Inv, Dated, Resident, Linked, Distinct, Lives, Unheard, Modes, Phases;
    var s', t := Apply(s, RunTask(i, o)), s.locals[i].ready[0];
    forall j: nat | j < |s.locals| && j != i ensures Holds(s', j) ==> s'.locals[j].hand.value != t {
      NotOwned(s, t, j);
    }
    MapShrinks(s.locals[i].table, Key(s.tasks[t].id));
  }

  lemma RunRest(s: Sys, i: nat, o: Outcome)
    requires SysInv(s) && Enabled(s, RunTask(i, o)) && s.loc[s.locals[i].ready[0]] == InTable(i)
    ensures var s' := Apply(s, RunTask(i, o)); Modes(s') && Lives(s') && Unheard(s') && Limits(s') && Phases(s')
  {
    hide SysInv, Dispatch;
    RunLives(s, i, o);
    RunModes(s, i, o);
    RunLimits(s, i, o);
  }

  lemma MapShrinks(m: map<nat, nat>, k: nat)
    ensures |m - {k}| <= |m|
  {
  }

  lemma GiveStep(s: Sys, i: nat)
    requires SysInv(s) && Enabled(s, GiveBack(i))
    ensures SysInv(Apply(s, GiveBack(i)))
  {
    hide Awakable, ReadyOk, AllNumbered, AllUnique, AllLag, Indexed, Modes, Lives, Unheard, Limits, Phases;
    var w, t := At(s, i), s.locals[i].hand.value;
    var s' := Apply(s, GiveBack(i));
    PlaceOf(s, t, InHand(i));
    GiveKeepsInv(w, Head(s.pool));
    GiveKeepsDated(w, Head(s.pool));
    assert At(s', i) == Give(w, Head(s.pool));
    LocalsAfter(s, s', i, t);
    LinkedPush(s.tasks, s.pool, t, s'.tasks[t]);
    forall p ensures Lies(s', t, p) <==> p == InPool {
      assert Lies(s, t, p) ==> p == s.loc[t];
    }
    PlacesMove(s, s', t, InPool);
    GiveRest(s, i);
  }

  lemma GiveKeepsDated(w: State, link: int)
    requires Dated(w) && w.hand.Some? && w.hand.value < |w.tasks|
    ensures Dated(Give(w, link))
  {
  }

  lemma GiveRest(s: Sys, i: nat)
    requires SysInv(s) && Enabled(s, GiveBack(i))
    ensures var s' := Apply(s, GiveBack(i)); Modes(s') && Lives(s') && Unheard(s') && Limits(s') && Phases(s')
  {
    hide Inv, Dated, Resident, Linked;
    var s', t := Apply(s, GiveBack(i)), s.locals[i].hand.value;
    PlaceOf(s, t, InHand(i));
    forall j: nat | j < |s.locals| && j != i ensures Holds(s', j) ==> s'.locals[j].hand.value != t {
      NotOwned(s, t, j);
    }
    StoppedIsFull(s);
  }

  /** Once the pool has been seen full, no task is anywhere else. */
  lemma StoppedIsFull(s: Sys)
    requires SysInv(s)
    ensures s.acc.Stopped? ==> forall t: nat :: t < |s.loc| ==> s.loc[t] == InPool
  {
    hide Inv, Dated, Resident;
    if s.acc.Stopped? {
      FullList(s.pool, |s.tasks|) by {
        assert forall x :: x in s.pool ==> Lies(s, x, InPool);
      }
      forall t: nat | t < |s.loc| ensures s.loc[t] == InPool { assert Lies(s, t, InPool); }
    }
  }

  // Runs -------------------------------------------------------------------------------

  /** Every step of every thread keeps the invariant. */
  lemma StepKeepsInv(s: Sys, a: Step)
    requires SysInv(s) && Enabled(s, a)
    ensures SysInv(Apply(s, a))
  {
    hide Inv, Dated, Places, Modes, Lives, Unheard, Limits, Phases, Lies;
    match a
    case PoolPop => PoolPopStep(s);
    case SetUp(version) => SetUpStep(s, version);
    case Push(i) => PushStep(s, i);
    case Take(i) => TakeStep(s, i);
    case InsertTask(i) => InsertStep(s, i);
    case Fire(i, e) => FireStep(s, i, e);
    case Deliver(i, id, ev) => DeliverStep(s, i, id, ev);
    case RunTask(i, o) => RunStep(s, i, o);
    case GiveBack(i) => GiveStep(s, i);
    case _ => AcceptorStep(s, a);
  }

  predicate Fresh(r: Task) { r.mode.Created? && !r.mark && r.max == 0 && r.events == [] }

  /** law_server_create: workers * limit fresh tasks, all in the pool. */
  ghost predicate Init(s: Sys, workers: nat) {
    && |s.locals| == workers && |s.queues| == workers && |s.tasks| == |s.pool| == |s.loc| == workers * s.limit
    && (forall i: nat :: i < workers ==> s.locals[i] == Local(map[], [], multiset{}, None) && s.queues[i] == [])
    && (forall t: nat :: t < |s.tasks| ==> Fresh(s.tasks[t]) && s.loc[t] == InPool)
    && Distinct(s.pool) && Linked(s.tasks, s.pool)
    && s.acc.Listening? && s.spawned == 0 && s.exited == {}
  }

  lemma InitInv(s: Sys, workers: nat)
    requires Init(s, workers)
    ensures SysInv(s)
  {
    assert forall x :: x in s.pool ==> x < |s.tasks|;
    FullList(s.pool, |s.tasks|);
  }

  ghost predicate Next(s: Sys, a: Step, s': Sys) { Shape(s) && Enabled(s, a) && s' == Apply(s, a) }

  /** s' is reached from s by the given steps, in order. */
  ghost predicate Runs(s: Sys, steps: seq<Step>, s': Sys)
    decreases |steps|
  {
    if steps == [] then s' == s
    else exists m :: Runs(s, Front(steps), m) && Next(m, Last(steps), s')
  }

  /** Every reachable state satisfies the invariant, in every interleaving. */
  lemma {:induction false} RunKeepsInv(s: Sys, steps: seq<Step>, s': Sys)
    requires SysInv(s) && Runs(s, steps, s')
    ensures SysInv(s')
    decreases |steps|
  {
    hide SysInv, Enabled, Apply;
    if steps != [] {
      var m :| Runs(s, Front(steps), m) && Next(m, Last(steps), s');
      RunKeepsInv(s, Front(steps), m);
      StepKeepsInv(m, Last(steps));
    }
  }

  ghost predicate Reachable(s: Sys) {
    exists s0, workers, steps :: Init(s0, workers) && Runs(s0, steps, s)
  }

  lemma ReachableInv(s: Sys)
    requires Reachable(s)
    ensures SysInv(s)
  {
    hide Init, SysInv, Runs;
    var s0, workers, steps :| Init(s0, workers) && Runs(s0, steps, s);
    InitInv(s0, workers);
    RunKeepsInv(s0, steps, s);
  }
}
