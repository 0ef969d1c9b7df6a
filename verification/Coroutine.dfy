/**
 * The coroutine switch: two routines over registers and word memory, and the C wrappers
 * that order their arguments (source/lawd/cor_x86_64.s and source/lawd/cor_x86_64.c).
 * Memory is addressed in words, so the source's offsets 0x0 and 0x8 are 0 and 1, and a
 * push moves rsp by one.
 */
module Coroutine {
  import opened Sequences
  import Worker

  /** The address of the instruction after "call *%rcx" in law_cor_call_x86_64. */
  const EXIT: int := 1

  datatype Cpu = Cpu(
    rbx: int, rbp: int, r12: int, r13: int, r14: int, r15: int, rsp: int, rip: int,
    rax: int, rdi: int, rsi: int, rdx: int, rcx: int, mem: map<int, int>)

  /** What a caller expects back from a call: callee-saved registers, stack and continuation. */
  datatype Context = Context(rbx: int, rbp: int, r12: int, r13: int, r14: int, r15: int, rsp: int, rip: int)

  function Read(m: map<int, int>, a: int): int { if a in m then m[a] else 0 }

  function Now(c: Cpu): Context { Context(c.rbx, c.rbp, c.r12, c.r13, c.r14, c.r15, c.rsp, c.rip) }

  /** On entry to a routine: where its caller continues once the routine returns. */
  function Here(c: Cpu): Context { Now(c).(rsp := c.rsp + 1, rip := Read(c.mem, c.rsp)) }

  /** Memory after pushing r15, r14, r13, r12, rbx and storing rbp and rsp in an environment. */
  function Save(c: Cpu, env: int): map<int, int> {
    c.mem[c.rsp - 1 := c.r15][c.rsp - 2 := c.r14][c.rsp - 3 := c.r13][c.rsp - 4 := c.r12][c.rsp - 5 := c.rbx]
      [env := c.rbp][env + 1 := c.rsp - 5]
  }

  /** The context an environment's two words and the frame they lead to describe. */
  function Load(m: map<int, int>, env: int): Context {
    var sp := Read(m, env + 1);
    Context(Read(m, sp), Read(m, env), Read(m, sp + 1), Read(m, sp + 2), Read(m, sp + 3), Read(m, sp + 4), sp + 6, Read(m, sp + 5))
  }

  function Enter(c: Cpu, k: Context): Cpu {
    c.(rbx := k.rbx, rbp := k.rbp, r12 := k.r12, r13 := k.r13, r14 := k.r14, r15 := k.r15, rsp := k.rsp, rip := k.rip)
  }

  /** law_cor_swap_x86_64. */
  function Swap(c: Cpu): Cpu {
    var m := Save(c, c.rdi);
    Enter(c.(mem := m, rax := c.rdx), Load(m, c.rsi))
  }

  /** law_cor_call_x86_64 up to the first instruction of the coroutine's function. */
  function CallEnter(c: Cpu): Cpu {
    var m := Save(c, c.rdi);
    var sp := Read(m, c.rsi + 1) - 1;
    c.(mem := m[sp := EXIT], r15 := c.rdi, rbp := Read(m, c.rsi), rsp := sp, rip := c.rcx)
  }

  /** The state in which law_cor_call_x86_64 is entered by law_cor_call. */
  function Prepared(c: Cpu, init: int, cor: int, top: int, fun: int, arg: int): Cpu {
    c.(mem := c.mem[cor := top][cor + 1 := top], rdi := init, rsi := cor, rdx := arg, rcx := fun)
  }

  /** law_cor_call_x86_64 from the return of the coroutine's function. */
  function CallExit(c: Cpu): Cpu { Enter(c, Load(c.mem, c.r15)) }

  // The instructions ----------------------------------------------------------------

  class Machine {
    var rbx: int
    var rbp: int
    var r12: int
    var r13: int
    var r14: int
    var r15: int
    var rsp: int
    var rip: int
    var rax: int
    var rdi: int
    var rsi: int
    var rdx: int
    var rcx: int
    var mem: map<int, int>

    function State(): Cpu
      reads this
    {
      Cpu(rbx, rbp, r12, r13, r14, r15, rsp, rip, rax, rdi, rsi, rdx, rcx, mem)
    }

    method Push(v: int)
      modifies this`rsp, this`mem
      ensures rsp == old(rsp) - 1 && mem == old(mem)[rsp := v]
    {
      rsp := rsp - 1;
      mem := mem[rsp := v];
    }

    method Pop() returns (v: int)
      modifies this`rsp
      ensures rsp == old(rsp) + 1 && v == Read(mem, old(rsp))
    {
      v := Read(mem, rsp);
      rsp := rsp + 1;
    }

    method Store(a: int, v: int)
      modifies this`mem
      ensures mem == old(mem)[a := v]
    {
      mem := mem[a := v];
    }

    method PushSaved()
      modifies this`rsp, this`mem
      ensures rsp == old(rsp) - 5
      ensures mem == old(mem[rsp - 1 := r15][rsp - 2 := r14][rsp - 3 := r13][rsp - 4 := r12][rsp - 5 := rbx])
    {
      Push(r15);
      Push(r14);
      Push(r13);
      Push(r12);
      Push(rbx);
    }

    method PopSaved()
      modifies this`rsp, this`rbx, this`r12, this`r13, this`r14, this`r15
      ensures rsp == old(rsp) + 5
      ensures rbx == Read(mem, old(rsp)) && r12 == Read(mem, old(rsp) + 1) && r13 == Read(mem, old(rsp) + 2)
      ensures r14 == Read(mem, old(rsp) + 3) && r15 == Read(mem, old(rsp) + 4)
    {
      rbx := Pop();
      r12 := Pop();
      r13 := Pop();
      r14 := Pop();
      r15 := Pop();
    }

    /** Push the callee-saved registers and store the frame and stack pointers at rdi. */
    method SaveTo(env: int)
      modifies this`rsp, this`mem
      ensures mem == Save(old(State()), env) && rsp == old(rsp) - 5
    {
      PushSaved();
      Store(env, rbp);
      Store(env + 1, rsp);
    }

    /** Load the frame and stack pointers, pop the callee-saved registers and return. */
    method LoadFrom(env: int)
      modifies this`rsp, this`rbx, this`rbp, this`r12, this`r13, this`r14, this`r15, this`rip
      ensures State() == Enter(old(State()), Load(mem, env))
    {
      rbp := Read(mem, env);
      rsp := Read(mem, env + 1);
      PopSaved();
      rip := Pop();
    }

    method RunSwap()
      modifies this
      ensures State() == Swap(old(State()))
    {
      hide Save, Load;
      SaveTo(rdi);
      rax := rdx;
      LoadFrom(rsi);
    }

    method RunCallEnter()
      modifies this
      ensures State() == CallEnter(old(State()))
    {
      hide Save;
      SaveTo(rdi);
      r15 := rdi;
      rbp := Read(mem, rsi);
      rsp := Read(mem, rsi + 1);
      Push(EXIT);
      rip := rcx;
    }

    method RunCallExit()
      modifies this
      ensures State() == CallExit(old(State()))
    {
      LoadFrom(r15);
    }

    /** law_cor_call: both words of the coroutine's environment are the top of its stack. */
    method CorCall(init: int, cor: int, top: int, fun: int, arg: int)
      modifies this
      ensures State() == CallEnter(Prepared(old(State()), init, cor, top, fun, arg))
    {
      hide CallEnter;
      Store(cor, top);
      Store(cor + 1, Read(mem, cor));
      rdi, rsi, rdx, rcx := init, cor, arg, fun;
      RunCallEnter();
    }

    /** law_cor_resume swaps from the initial environment to the coroutine's. */
    method CorResume(init: int, cor: int, signal: int)
      modifies this
      ensures State() == Swap(old(State()).(rdi := init, rsi := cor, rdx := signal))
    {
      rdi, rsi, rdx := init, cor, signal;
      RunSwap();
    }

    /** law_cor_yield swaps from the coroutine's environment to the initial one. */
    method CorYield(init: int, cor: int, signal: int)
      modifies this
      ensures State() == Swap(old(State()).(rdi := cor, rsi := init, rdx := signal))
    {
      rdi, rsi, rdx := cor, init, signal;
      RunSwap();
    }
  }

  // Worlds of disjoint stacks -----------------------------------------------------------

  /** The words lo up to, but not including, hi. */
  datatype Region = Region(lo: int, hi: int)

  predicate Apart(r: Region, q: Region) { r.hi <= q.lo || q.hi <= r.lo }

  function Words(env: int): Region { Region(env, env + 2) }

  datatype Asleep = Asleep(ctx: Context, home: Region, origin: Worker.Option<int>)

  /**
   * The processor on the stack `here`, and for each environment that something is
   * suspended in, the context it was left in and the stack it is on.  The origin of a stack
   * is the initial environment of the law_cor_call that started a function on it.
   */
  datatype World = World(cpu: Cpu, here: Region, origin: Worker.Option<int>, asleep: map<int, Asleep>)

  predicate Frame(k: Asleep) { k.home.lo <= k.ctx.rsp - 6 && k.ctx.rsp <= k.home.hi }

  ghost predicate Disjoint(w: World) {
    && (forall e :: e in w.asleep ==> Apart(w.here, w.asleep[e].home) && Apart(w.here, Words(e)) && Frame(w.asleep[e]))
    && (forall e, f :: e in w.asleep && f in w.asleep ==> Apart(Words(e), w.asleep[f].home))
    && (forall e, f :: e in w.asleep && f in w.asleep && e != f ==>
          Apart(Words(e), Words(f)) && Apart(w.asleep[e].home, w.asleep[f].home))
  }

  /** Every suspended environment still leads to the context it was left in. */
  ghost predicate Kept(w: World) {
    forall e :: e in w.asleep ==> Load(w.cpu.mem, e) == w.asleep[e].ctx
  }

  ghost predicate Inv(w: World) { Disjoint(w) && Kept(w) }

  datatype Move =
    | Work(cpu: Cpu)
    | Switch(src: int, dst: int, signal: int)
    | Start(init: int, cor: int, stack: Region, fun: int, arg: int)
    | Finish

  /** The stack of the running code has room for a frame above the return address at rsp. */
  predicate Room(w: World) { w.here.lo <= w.cpu.rsp - 5 && w.cpu.rsp + 1 <= w.here.hi }

  /** An environment nothing is suspended in, whose words lie on no stack and in no other environment. */
  ghost predicate FreeEnv(w: World, env: int) {
    && env !in w.asleep && Apart(Words(env), w.here)
    && (forall e :: e in w.asleep ==> Apart(Words(env), Words(e)) && Apart(Words(env), w.asleep[e].home))
  }

  ghost predicate Can(w: World, a: Move) {
    match a
    case Work(cpu) =>
      // Running code leaves suspended stacks and environments alone.
      forall e, x :: e in w.asleep && (e <= x < e + 2 || w.asleep[e].home.lo <= x < w.asleep[e].home.hi) ==>
        Read(cpu.mem, x) == Read(w.cpu.mem, x)
    case Switch(src, dst, signal) => FreeEnv(w, src) && dst in w.asleep && Room(w)
    case Start(init, cor, stack, fun, arg) =>
      && FreeEnv(w, init) && FreeEnv(w, cor) && Apart(Words(init), Words(cor)) && Room(w)
      && stack.lo < stack.hi && Apart(stack, w.here) && Apart(stack, Words(init)) && Apart(stack, Words(cor))
      && (forall e :: e in w.asleep ==> Apart(stack, w.asleep[e].home) && Apart(stack, Words(e)))
    case Finish =>
      // The function returns: its stack is back at the word its call pushed, r15 as at its entry.
      && w.cpu.rsp == w.here.hi - 1 && Read(w.cpu.mem, w.cpu.rsp) == EXIT
      && w.origin == Worker.Some(w.cpu.r15) && w.cpu.r15 in w.asleep
  }

  ghost function After(w: World, a: Move): World
    requires Can(w, a)
  {
    match a
    case Work(cpu) => w.(cpu := cpu)
    case Switch(src, dst, signal) =>
      World(Swap(w.cpu.(rdi := src, rsi := dst, rdx := signal)), w.asleep[dst].home, w.asleep[dst].origin,
            (w.asleep - {dst})[src := Asleep(Here(w.cpu), w.here, w.origin)])
    case Start(init, cor, stack, fun, arg) =>
      World(CallEnter(Prepared(w.cpu, init, cor, stack.hi, fun, arg)), stack, Worker.Some(init),
            w.asleep[init := Asleep(Here(w.cpu), w.here, w.origin)])
    case Finish =>
      var e := w.cpu.r15;
      World(CallExit(w.cpu.(rsp := w.cpu.rsp + 1)), w.asleep[e].home, w.asleep[e].origin, w.asleep - {e})
  }

  /** Saving a context makes its environment lead back to it. */
  lemma SaveThenLoad(c: Cpu, env: int)
    requires Apart(Words(env), Region(c.rsp - 5, c.rsp + 1))
    ensures Load(Save(c, env), env) == Here(c)
    ensures forall x :: !(c.rsp - 5 <= x < c.rsp) && !(env <= x < env + 2) ==> Read(Save(c, env), x) == Read(c.mem, x)
  {
  }

  /** A load depends only on the environment's words and its frame. */
  lemma LoadFrame(m: map<int, int>, m': map<int, int>, env: int)
    requires Read(m', env) == Read(m, env) && Read(m', env + 1) == Read(m, env + 1)
    requires forall x :: Read(m, env + 1) <= x < Read(m, env + 1) + 6 ==> Read(m', x) == Read(m, x)
    ensures Load(m', env) == Load(m, env)
  {
  }

  /** A write outside a suspended environment and its stack keeps it. */
  lemma AsleepFrame(w: World, e: int, m: map<int, int>)
    requires Inv(w) && e in w.asleep
    requires forall x :: e <= x < e + 2 || w.asleep[e].home.lo <= x < w.asleep[e].home.hi ==> Read(m, x) == Read(w.cpu.mem, x)
    ensures Load(m, e) == w.asleep[e].ctx
  {
  }

  lemma SwitchDisjoint(w: World, src: int, dst: int, signal: int)
    requires Disjoint(w) && Can(w, Switch(src, dst, signal))
    ensures Disjoint(After(w, Switch(src, dst, signal)))
  {
    hide Swap;
  }

  lemma SwitchStep(w: World, src: int, dst: int, signal: int)
    requires Inv(w) && Can(w, Switch(src, dst, signal))
    ensures var w' := After(w, Switch(src, dst, signal));
            Inv(w') && Now(w'.cpu) == w.asleep[dst].ctx && w'.cpu.rax == signal && w'.asleep[src].ctx == Here(w.cpu)
  {
    var w' := After(w, Switch(src, dst, signal));
    var c := w.cpu.(rdi := src, rsi := dst, rdx := signal);
    SwitchDisjoint(w, src, dst, signal);
    SaveThenLoad(c, src);
    hide Save, Load;
    forall e | e in w.asleep ensures Load(Save(c, src), e) == w.asleep[e].ctx {
      AsleepFrame(w, e, Save(c, src));
    }
  }

  lemma PreparedEffect(c: Cpu, init: int, cor: int, top: int, fun: int, arg: int)
    requires Apart(Words(cor), Region(c.rsp - 5, c.rsp + 1))
    ensures var p := Prepared(c, init, cor, top, fun, arg);
            && Here(p) == Here(c) && p.rsp == c.rsp
            && Read(p.mem, cor) == top && Read(p.mem, cor + 1) == top
            && forall x :: !(cor <= x < cor + 2) ==> Read(p.mem, x) == Read(c.mem, x)
  {
  }

  lemma EnterEffect(p: Cpu, top: int)
    requires Apart(Words(p.rdi), Region(p.rsp - 5, p.rsp + 1)) && Apart(Words(p.rsi), Region(p.rsp - 5, p.rsp + 1))
    requires Apart(Words(p.rdi), Words(p.rsi)) && Read(p.mem, p.rsi) == Read(p.mem, p.rsi + 1) == top
    requires top - 1 < p.rsp - 5 || p.rsp + 1 <= top - 1
    requires !(p.rdi <= top - 1 < p.rdi + 2)
    ensures var m := CallEnter(p).mem;
            && Load(m, p.rdi) == Here(p)
            && CallEnter(p).rsp == top - 1 && Read(m, top - 1) == EXIT && CallEnter(p).rbp == top
            && forall x | !(p.rsp - 5 <= x < p.rsp) && !(p.rdi <= x < p.rdi + 2) && x != top - 1 ::
                 Read(m, x) == Read(p.mem, x)
  {
    SaveThenLoad(p, p.rdi);
    var m := Save(p, p.rdi);
    assert Read(m, p.rsi + 1) == top;
    assert Read(m, p.rdi + 1) == p.rsp - 5;
    hide Save;
    var m' := m[top - 1 := EXIT];
    assert CallEnter(p).mem == m';
    LoadFrame(m, m', p.rdi);
  }

  lemma StartDisjoint(w: World, a: Move)
    requires Disjoint(w) && a.Start? && Can(w, a)
    ensures Disjoint(After(w, a))
  {
    hide CallEnter;
  }

  lemma StartRegisters(p: Cpu)
    ensures var c := CallEnter(p);
            c.rip == p.rcx && c.rdi == p.rdi && c.rsi == p.rsi && c.rdx == p.rdx && c.r15 == p.rdi
  {
  }

  lemma StartStep(w: World, a: Move)
    requires Inv(w) && a.Start? && Can(w, a)
    ensures var w' := After(w, a);
            && Inv(w') && w'.asleep[a.init].ctx == Here(w.cpu)
            && w'.cpu.rsp == a.stack.hi - 1 && Read(w'.cpu.mem, w'.cpu.rsp) == EXIT
            && w'.cpu.rip == a.fun && w'.cpu.rdi == a.init && w'.cpu.rsi == a.cor && w'.cpu.rdx == a.arg
            && w'.cpu.rbp == a.stack.hi && w'.cpu.r15 == a.init
  {
    var w' := After(w, a);
    StartKept(w, a);
    StartDisjoint(w, a);
    hide Save, Load, Here, Disjoint, CallEnter, Kept;
    StartRegisters(Prepared(w.cpu, a.init, a.cor, a.stack.hi, a.fun, a.arg));
  }

  lemma StartKept(w: World, a: Move)
    requires Inv(w) && a.Start? && Can(w, a)
    ensures var w' := After(w, a);
            && Kept(w') && w'.asleep[a.init].ctx == Here(w.cpu)
            && w'.cpu.rsp == a.stack.hi - 1 && Read(w'.cpu.mem, w'.cpu.rsp) == EXIT && w'.cpu.rbp == a.stack.hi
  {
    var p := Prepared(w.cpu, a.init, a.cor, a.stack.hi, a.fun, a.arg);
    PreparedEffect(w.cpu, a.init, a.cor, a.stack.hi, a.fun, a.arg);
    assert p.rdi == a.init && p.rsi == a.cor;
    EnterEffect(p, a.stack.hi);
    hide Save, Load, Here, CallEnter, Prepared;
    forall e | e in w.asleep ensures Load(CallEnter(p).mem, e) == w.asleep[e].ctx {
      AsleepFrame(w, e, CallEnter(p).mem);
    }
  }

  lemma FinishStep(w: World)
    requires Inv(w) && Can(w, Finish)
    ensures var w' := After(w, Finish);
            Inv(w') && Now(w'.cpu) == w.asleep[w.cpu.r15].ctx && w'.cpu.rax == w.cpu.rax
  {
  }

  /** Every move of the machine keeps every suspended environment intact. */
  lemma MoveKeepsInv(w: World, a: Move)
    requires Inv(w) && Can(w, a)
    ensures Inv(After(w, a))
  {
    match a
    case Work(cpu) =>
      forall e | e in w.asleep ensures Load(cpu.mem, e) == w.asleep[e].ctx { AsleepFrame(w, e, cpu.mem); }
    case Switch(src, dst, signal) => SwitchStep(w, src, dst, signal);
    case Start(init, cor, stack, fun, arg) => StartStep(w, a);
    case Finish => FinishStep(w);
  }

  /** The environment whose context a move puts on the processor. */
  predicate Wakes(w: World, a: Move, e: int) {
    (a.Switch? && a.dst == e) || (a.Finish? && w.origin == Worker.Some(e))
  }

  /** A run none of whose moves wakes environment e. */
  ghost predicate Dozes(w: World, moves: seq<Move>, w': World, e: int)
    decreases |moves|
  {
    if moves == [] then w' == w
    else exists m :: Dozes(w, Front(moves), m, e) && Moves(m, Last(moves), w', e)
  }

  ghost predicate Moves(m: World, a: Move, w': World, e: int) { Can(m, a) && !Wakes(m, a, e) && w' == After(m, a) }

  lemma {:induction false} StaysAsleep(w: World, moves: seq<Move>, w': World, e: int)
    requires Inv(w) && e in w.asleep && Dozes(w, moves, w', e)
    ensures Inv(w') && e in w'.asleep && w'.asleep[e] == w.asleep[e]
    decreases |moves|
  {
    hide Inv, Swap, CallEnter, CallExit, Kept, Disjoint;
    if moves != [] {
      var a := Last(moves);
      var m :| Dozes(w, Front(moves), m, e) && Moves(m, a, w', e);
      StaysAsleep(w, Front(moves), m, e);
      MoveKeepsInv(m, a);
    }
  }

  /**
   * Over any run of calls, resumes, yields and returns on disjoint stacks: code that
   * switches away in world w through environment e, by a call, a resume or a yield,
   * continues at the next move that wakes e with the callee-saved registers, rbp, rsp and
   * return address it had then.  Its call returns the signal of the switch that woke it,
   * or the value the coroutine's function returned.
   */
  lemma ResumesWhereItLeft(w: World, a: Move, e: int, moves: seq<Move>, w1: World, b: Move)
    requires Inv(w) && Can(w, a)
    requires (a.Switch? && a.src == e) || (a.Start? && a.init == e)
    requires Dozes(After(w, a), moves, w1, e) && Can(w1, b) && Wakes(w1, b, e)
    ensures Now(After(w1, b).cpu) == Here(w.cpu)
    ensures After(w1, b).cpu.rax == if b.Switch? then b.signal else w1.cpu.rax
    ensures Inv(After(w1, b))
  {
    hide Swap, CallEnter, CallExit, Kept, Disjoint, Dozes;
    if a.Switch? { SwitchStep(w, a.src, a.dst, a.signal); } else { StartStep(w, a); }
    StaysAsleep(After(w, a), moves, w1, e);
    if b.Switch? { SwitchStep(w1, b.src, b.dst, b.signal); } else { FinishStep(w1); }
  }

  /**
   * The return of a coroutine's function goes to whoever last switched away through the
   * environment its law_cor_call was given, that is, to the most recent resumer that used
   * this environment, with the function's value as the result there.
   */
  lemma ReturnGoesToTheLatestResumer(w: World, a: Move, e: int, moves: seq<Move>, w1: World)
    requires Inv(w) && Can(w, a)
    requires (a.Switch? && a.src == e) || (a.Start? && a.init == e)
    requires Dozes(After(w, a), moves, w1, e) && Can(w1, Finish) && w1.origin == Worker.Some(e)
    ensures var w' := After(w1, Finish);
            Now(w'.cpu) == Here(w.cpu) && w'.cpu.rax == w1.cpu.rax && w'.here == w.here && w'.origin == w.origin
  {
    hide Swap, CallEnter, CallExit, Kept, Disjoint, Dozes;
    ResumesWhereItLeft(w, a, e, moves, w1, Finish);
    if a.Switch? { SwitchStep(w, a.src, a.dst, a.signal); } else { StartStep(w, a); }
    StaysAsleep(After(w, a), moves, w1, e);
  }
}
