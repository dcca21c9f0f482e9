/** Correctness of the code for single operations: loads, stores, arithmetic and calls. */
module CodeGenLeaves {
  import opened Wrappers
  import opened KaleidoscopeAst
  import opened KaleidoscopeEval
  import opened Ir
  import opened CodeGenSpec
  import opened CodeGenFrame
  import opened CodeGenScope
  import opened CodeGenRun

  lemma VariableRuns(f: Function, m: Machine, x: string, s: GenState, c: Config, env: Env, w: World)
    returns (c2: Config)
    requires Ready(f, m, s, c, env, w) && GenVariable(x, s).v.Some? && Contains(f, GenVariable(x, s).s)
    ensures x in env && Reaches(f.blocks, m, c, c2)
    ensures Arrived(s, c, c2, GenVariable(x, s), {}, env[x], env, w)
  {
    var slot := Lookup(s, x).value;
    c2 := DefineRuns(f, m, s, Load(s.nextTemp, slot), c, DoubleReg(env[x]), w, env, w);
  }

  lemma CallRuns(f: Function, m: Machine, g: string, vs: seq<Operand>, ds: seq<Double>, s: GenState, c: Config,
          env: Env, w: World, fuel: nat)
    returns (c2: Config)
    requires Ready(f, m, s, c, env, w) && GenCall(g, vs, s).v.Some? && Contains(f, GenCall(g, vs, s).s)
    requires Values(vs, c) == Some(ds)
    ensures Follows(f, m, s, c, c2, EvalCall(m, g, ds, env, w), GenCall(g, vs, s), {}, fuel)
  {
    var i := CallFn(s.nextTemp, g, vs);
    var r := m.callee(w, g, ds);
    if r.None? {
      c2 := c;
      ReachesSelf(f, m, c);
    } else {
      c2 := DefineRuns(f, m, s, i, c, DoubleReg(r.value.val), r.value.world, env, w);
    }
  }

  lemma AssignRuns(f: Function, m: Machine, x: string, v: Operand, d: Double, s: GenState, c: Config, env: Env,
          w: World)
    returns (c2: Config)
    requires Ready(f, m, s, c, env, w) && GenAssign(x, v, s).v.Some? && Contains(f, GenAssign(x, v, s).s)
    requires Value(v, c) == Some(d) && Lasting(v, s)
    ensures x in env && Reaches(f.blocks, m, c, c2)
    ensures Arrived(s, c, c2, GenAssign(x, v, s), {x}, d, env[x := d], w)
  {
    c2 := StoreBoundRuns(f, m, x, Lookup(s, x).value, v, d, s, c, env, w);
  }

  lemma BinaryRuns(f: Function, m: Machine, op: char, a: Operand, b: Operand, x: Double, y: Double, s: GenState,
          c: Config, env: Env, w: World, fuel: nat)
    returns (c2: Config)
    requires Ready(f, m, s, c, env, w) && GenBinary(op, a, b, s).v.Some? && Contains(f, GenBinary(op, a, b, s).s)
    requires Value(a, c) == Some(x) && Value(b, c) == Some(y)
    ensures Follows(f, m, s, c, c2, EvalBinary(m, op, x, y, env, w), GenBinary(op, a, b, s), {}, fuel)
  {
    hide Ready, Contains, Follows, Define;
    match op
    case '+' => c2 := DefineFollows(f, m, FBinary(s.nextTemp, FAdd, a, b), m.fp.fadd(x, y), s, c, env, w, fuel);
    case '-' => c2 := DefineFollows(f, m, FBinary(s.nextTemp, FSub, a, b), m.fp.fsub(x, y), s, c, env, w, fuel);
    case '*' => c2 := DefineFollows(f, m, FBinary(s.nextTemp, FMul, a, b), m.fp.fmul(x, y), s, c, env, w, fuel);
    case '<' => c2 := LessRuns(f, m, a, b, x, y, s, c, env, w, fuel);
    case _ =>
      TwoValues(a, b, x, y, c);
      c2 := CallRuns(f, m, BinaryName(op), [a, b], [x, y], s, c, env, w, fuel);
  }

  /** One instruction that computes d. */
  lemma DefineFollows(f: Function, m: Machine, i: Instr, d: Double, s: GenState, c: Config, env: Env, w: World,
          fuel: nat)
    returns (c2: Config)
    requires Ready(f, m, s, c, env, w) && Contains(f, Define(s, i).s)
    requires Execute(i, m, c) == Goto(WithReg(c, s.nextTemp, DoubleReg(d)))
    ensures Follows(f, m, s, c, c2, Done(d, env, w), Define(s, i), {}, fuel)
  {
    hide Contains, Matches, SlotsExist, SlotsDistinct, Reaches, Execute, Keeps, Allocated, SameScope;
    c2 := DefineRuns(f, m, s, i, c, DoubleReg(d), w, env, w);
  }

  lemma TwoValues(a: Operand, b: Operand, x: Double, y: Double, c: Config)
    requires Value(a, c) == Some(x) && Value(b, c) == Some(y)
    ensures Values([a, b], c) == Some([x, y])
  {
    var ab := [a, b];
    assert ab[1..] == [b];
    OneValue(b, y, c);
    assert [x] + [y] == [x, y];
  }

  lemma OneValue(a: Operand, x: Double, c: Config)
    requires Value(a, c) == Some(x)
    ensures Values([a], c) == Some([x])
  {
    var vs := [a];
    assert vs[1..] == [];
    assert [x] + [] == [x];
  }

  lemma LessRuns(f: Function, m: Machine, a: Operand, b: Operand, x: Double, y: Double, s: GenState, c: Config,
          env: Env, w: World, fuel: nat)
    returns (c2: Config)
    requires Ready(f, m, s, c, env, w) && Contains(f, GenBinary('<', a, b, s).s)
    requires Value(a, c) == Some(x) && Value(b, c) == Some(y)
    ensures Follows(f, m, s, c, c2, EvalBinary(m, '<', x, y, env, w), GenBinary('<', a, b, s), {}, fuel)
  {
    hide Grows, Contains, Matches, Allocated, SlotsExist, SlotsDistinct, SameScope, Reaches, Emit, WellNumbered, Keeps;
    var flag := m.fp.fcmpULT(x, y);
    var i := FCmpULT(s.nextTemp, a, b);
    var j := UIToFP(s.nextTemp + 1, Temp(s.nextTemp));
    c2 := TwoDefinesRun(f, m, s, i, j, c, BoolReg(flag), DoubleReg(m.fp.uitofp(flag)), env, w);
  }

  /** The configuration after an instruction that set register t. */
  function WithReg(c: Config, t: nat, reg: Reg): Config {
    c.(regs := c.regs[t := reg], pc := c.pc + 1)
  }

  /** Two instructions in a row that set the next two registers. */
  lemma TwoDefinesRun(f: Function, m: Machine, s: GenState, i: Instr, j: Instr, c: Config, p: Reg, q: Reg, env: Env,
          w: World)
    returns (c2: Config)
    requires Ready(f, m, s, c, env, w) && Contains(f, Define(Define(s, i).s, j).s)
    requires Execute(i, m, c) == Goto(WithReg(c, s.nextTemp, p))
    requires var c1 := WithReg(c, s.nextTemp, p);
      Execute(j, m, c1) == Goto(WithReg(c1, s.nextTemp + 1, q))
    ensures var t := Define(Define(s, i).s, j).s;
      && Reaches(f.blocks, m, c, c2) && Ready(f, m, t, c2, env, w) && Keeps(s, c, c2, {}) && SameScope(s, t)
      && c2 == WithReg(WithReg(c, s.nextTemp, p), s.nextTemp + 1, q)
  {
    hide Grows, WellNumbered, Contains, Matches, Allocated, SlotsExist, SlotsDistinct, SameScope, Reaches, Execute,
      Emit, Keeps;
    var t := Define(s, i).s;
    var u := Define(t, j).s;
    DefineGrows(s, i);
    GrownWellNumbered(s, t);
    DefineGrows(t, j);
    ContainsEarlier(f, t, u);
    var c1 := DefineRuns(f, m, s, i, c, p, w, env, w);
    c2 := DefineRuns(f, m, t, j, c1, q, w, env, w);
    ReachesTransitive(f, m, c, c1, c2);
    KeepsTransitive(s, t, c, c1, c2, {}, {});
    KeepsMore(s, c, c2, {} + {}, {});
    SameScopeTransitive(s, t, u);
  }

  /** The comparison with 0.0 that precedes a conditional branch, and the branch. */
  lemma BranchRuns(f: Function, m: Machine, v: Operand, d: Double, yes: nat, no: nat, s: GenState, c: Config,
          env: Env, w: World)
    returns (c2: Config)
    requires Ready(f, m, s, c, env, w) && Value(v, c) == Some(d)
    requires var t := Define(s, FCmpONE(s.nextTemp, v, Const(s.zero))).s;
      Contains(f, Emit(t, CondBr(Temp(s.nextTemp), yes, no)))
    ensures Reaches(f.blocks, m, c, c2) && Keeps(s, c, c2, {}) && c2.mem == c.mem && c2.world == w
    ensures c2.block == (if m.fp.fcmpONE(d, m.fp.zero) then yes else no) && c2.pc == 0 && c2.prev == Some(s.cur)
    ensures Advances(f, m, c, c2)
  {
    var flag := m.fp.fcmpONE(d, m.fp.zero);
    var i := FCmpONE(s.nextTemp, v, Const(s.zero));
    var t := Define(s, i).s;
    DefineGrows(s, i);
    EmitGrows(t, CondBr(Temp(s.nextTemp), yes, no));
    ContainsEarlier(f, t, Emit(t, CondBr(Temp(s.nextTemp), yes, no)));
    hide Grows, Matches, SlotsExist, SlotsDistinct, Keeps, WellNumbered;
    var c1 := DefineRuns(f, m, s, i, c, BoolReg(flag), w, env, w);
    c2 := c1.(block := if flag then yes else no, prev := Some(c1.block), pc := 0);
    assert Step(f.blocks, m, c1) == Goto(c2);
    assert c2.prev == Some(s.cur);
    hide Contains, Step, Emit, Define, Ready;
    OneMoreStep(f, m, c, c1, c2);
    KeepsAcrossJump(s, c, c1, c2);
  }

  lemma OneMoreStep(f: Function, m: Machine, c: Config, c1: Config, c2: Config)
    requires Reaches(f.blocks, m, c, c1) && Step(f.blocks, m, c1) == Goto(c2)
    ensures Advances(f, m, c, c2) && Reaches(f.blocks, m, c, c2)
  {
    var n: nat :| Steps(f.blocks, m, n, c) == Some(c1);
    assert Steps(f.blocks, m, 1, c1) == Some(c2) by { assert Steps(f.blocks, m, 0, c2) == Some(c2); }
    StepsCompose(f.blocks, m, n, 1, c);
    assert Steps(f.blocks, m, n + 1, c) == Some(c2);
  }

  lemma KeepsAcrossJump(s: GenState, c: Config, c1: Config, c2: Config)
    requires Keeps(s, c, c1, {}) && c2.regs == c1.regs && c2.mem == c1.mem && c2.args == c1.args
    ensures Keeps(s, c, c2, {})
  {}

  /** An unconditional branch to a new block. */
  lemma JumpRuns(f: Function, m: Machine, target: nat, s: GenState, c: Config) returns (c2: Config)
    requires At(s, c) && Contains(f, Emit(s, Br(target)))
    ensures Reaches(f.blocks, m, c, c2) && Keeps(s, c, c2, {})
    ensures c2 == c.(block := target, prev := Some(s.cur), pc := 0)
  {
    c2 := c.(block := target, prev := Some(s.cur), pc := 0);
    ReachesNext(f, m, c, c2);
  }

  /** A store to a slot that the table does not mention leaves the environment alone. */
  lemma StoreRuns(f: Function, m: Machine, slot: nat, v: Operand, d: Double, s: GenState, c: Config)
    returns (c2: Config)
    requires At(s, c) && Contains(f, Emit(s, Store(v, slot))) && Value(v, c) == Some(d) && slot in c.mem
    ensures c2 == c.(mem := c.mem[slot := Some(d)], pc := c.pc + 1)
    ensures Reaches(f.blocks, m, c, c2) && At(Emit(s, Store(v, slot)), c2)
  {
    c2 := c.(mem := c.mem[slot := Some(d)], pc := c.pc + 1);
    ReachesNext(f, m, c, c2);
  }

  lemma ContainsStart(f: Function, s: GenState, id: nat)
    requires id !in s.blocks && Contains(f, StartBlock(s, id))
    ensures Contains(f, s)
  {
    forall b | b in s.blocks ensures b in f.blocks && IsPrefix(s.blocks[b], f.blocks[b]) {
      assert StartBlock(s, id).blocks[b] == s.blocks[b];
    }
  }

  /** What contains the code of the merge block contains the code before it. */
  lemma ContainsMerge(f: Function, s: GenState, n: nat, v: Operand, from: nat, u: Operand)
    requires WellNumbered(s) && n + 2 < s.nextBlock && n + 2 !in s.blocks && Contains(f, IfMerge(s, n, v, from, u).s)
    ensures Contains(f, Emit(s, Br(n + 2))) && Contains(f, s)
  {
    EmitGrows(s, Br(n + 2));
    var t := StartBlock(Emit(s, Br(n + 2)), n + 2);
    DefineGrows(t, Phi(t.nextTemp, [Incoming(v, from), Incoming(u, s.cur)]));
    ContainsEarlier(f, t, IfMerge(s, n, v, from, u).s);
    ContainsStart(f, Emit(s, Br(n + 2)), n + 2);
    ContainsEarlier(f, s, Emit(s, Br(n + 2)));
  }

  lemma ContainsElse(f: Function, s: GenState, n: nat)
    requires WellNumbered(s) && n + 1 !in s.blocks && Contains(f, IfElse(s, n))
    ensures Contains(f, Emit(s, Br(n + 2))) && Contains(f, s)
  {
    EmitGrows(s, Br(n + 2));
    ContainsStart(f, Emit(s, Br(n + 2)), n + 1);
    ContainsEarlier(f, s, Emit(s, Br(n + 2)));
  }

  /** The merge block takes the value of the arm it is entered from. */
  lemma MergeRuns(f: Function, m: Machine, s: GenState, n: nat, v: Operand, from: nat, u: Operand, d: Double, c: Config)
    returns (c2: Config)
    requires WellNumbered(s) && n + 2 < s.nextBlock && n + 2 !in s.blocks && Contains(f, IfMerge(s, n, v, from, u).s)
    requires c.block == n + 2 && c.pc == 0 && c.prev.Some? && from != s.cur
    requires (c.prev.value == from && Value(v, c) == Some(d)) || (c.prev.value == s.cur && Value(u, c) == Some(d))
    ensures var r := IfMerge(s, n, v, from, u);
      && Reaches(f.blocks, m, c, c2) && At(r.s, c2) && r.v.Some? && Lasting(r.v.value, r.s)
      && Value(r.v.value, c2) == Some(d)
      && c2 == c.(regs := c.regs[s.nextTemp := DoubleReg(d)], pc := 1)
  {
    var t := StartBlock(Emit(s, Br(n + 2)), n + 2);
    var incoming := [Incoming(v, from), Incoming(u, s.cur)];
    c2 := c.(regs := c.regs[s.nextTemp := DoubleReg(d)], pc := 1);
    PhiPicks(v, from, u, s.cur);
    ReachesNext(f, m, c, c2);
  }

  lemma PhiPicks(v: Operand, from: nat, u: Operand, other: nat)
    requires from != other
    ensures PhiOperand([Incoming(v, from), Incoming(u, other)], from) == Some(v)
    ensures PhiOperand([Incoming(v, from), Incoming(u, other)], other) == Some(u)
  {
    var incoming := [Incoming(v, from), Incoming(u, other)];
    assert incoming[1..] == [Incoming(u, other)];
    assert PhiOperand(incoming[1..], other) == Some(u);
  }

  ghost predicate Advances(f: Function, m: Machine, c: Config, c2: Config) {
    exists k: nat :: k > 0 && Steps(f.blocks, m, k, c) == Some(c2)
  }

  lemma AdvancesAfter(f: Function, m: Machine, a: Config, b: Config, c: Config)
    requires Reaches(f.blocks, m, a, b) && Advances(f, m, b, c)
    ensures Advances(f, m, a, c) && Reaches(f.blocks, m, a, c)
  {
    var n: nat :| Steps(f.blocks, m, n, a) == Some(b);
    var k: nat :| k > 0 && Steps(f.blocks, m, k, b) == Some(c);
    StepsCompose(f.blocks, m, n, k, a);
    assert Steps(f.blocks, m, n + k, a) == Some(c);
  }

  /** One round more takes at least one step more. */
  lemma FailsNextRound(f: Function, m: Machine, c: Config, c1: Config, c2: Config, out: Outcome<Double>, fuel: nat)
    requires fuel > 0 && Advances(f, m, c, c1) && Fails(f, m, c1, c2, out, fuel - 1)
    ensures Fails(f, m, c, c2, out, fuel)
  {
    var k: nat :| k > 0 && Steps(f.blocks, m, k, c) == Some(c1);
    if out.Stuck? {
      ReachesTransitive(f, m, c, c1, c2);
    } else {
      StepsCompose(f.blocks, m, k, fuel - 1, c);
      StepsPrefix(f.blocks, m, k + fuel - 1, fuel, c);
    }
  }

  /** Load and addition at the end of a round. */
  lemma NextValueRuns(f: Function, m: Machine, x: string, slot: nat, step: Operand, d: Double, s: GenState,
          c: Config, env: Env, w: World)
    returns (c2: Config)
    requires Ready(f, m, s, c, env, w) && Lookup(s, x) == Some(slot) && Value(step, c) == Some(d) && Lasting(step, s)
    requires Contains(f, NextValue(s, slot, step))
    ensures var t := NextValue(s, slot, step);
      && x in env && Reaches(f.blocks, m, c, c2) && Keeps(s, c, c2, {}) && SameScope(s, t)
      && Ready(f, m, t, c2, env, w) && Lookup(t, x) == Some(slot)
      && Value(Temp(s.nextTemp + 1), c2) == Some(m.fp.fadd(env[x], d))
  {
    assert x in env && slot in c.mem && c.mem[slot] == Some(env[x]);
    hide Grows, WellNumbered, Contains, Matches, Allocated, SlotsExist, SlotsDistinct, Reaches, Keeps, Emit;
    var i := Load(s.nextTemp, slot);
    var j := FBinary(s.nextTemp + 1, FAdd, Temp(s.nextTemp), step);
    LoadAddExecutes(m, c, s.nextTemp, slot, step, env[x], d);
    hide Execute, Value;
    c2 := TwoDefinesRun(f, m, s, i, j, c, DoubleReg(env[x]), DoubleReg(m.fp.fadd(env[x], d)), env, w);
  }

  lemma LoadAddExecutes(m: Machine, c: Config, t: nat, slot: nat, step: Operand, v: Double, d: Double)
    requires slot in c.mem && c.mem[slot] == Some(v) && Value(step, c) == Some(d) && (step.Temp? ==> step.id < t)
    ensures var c1 := WithReg(c, t, DoubleReg(v)); var c2 := WithReg(c1, t + 1, DoubleReg(m.fp.fadd(v, d)));
      && Execute(Load(t, slot), m, c) == Goto(c1) && Execute(FBinary(t + 1, FAdd, Temp(t), step), m, c1) == Goto(c2)
      && Value(Temp(t + 1), c2) == Some(m.fp.fadd(v, d))
  {}

  /** The increment at the end of a round. */
  lemma IncrementRuns(f: Function, m: Machine, x: string, slot: nat, step: Operand, d: Double, s: GenState,
          c: Config, env: Env, w: World)
    returns (c2: Config)
    requires Ready(f, m, s, c, env, w) && Lookup(s, x) == Some(slot) && Value(step, c) == Some(d) && Lasting(step, s)
    requires Contains(f, Increment(s, slot, step))
    ensures x in env
    ensures Reaches(f.blocks, m, c, c2) && Keeps(s, c, c2, {x}) && SameScope(s, Increment(s, slot, step))
    ensures Ready(f, m, Increment(s, slot, step), c2, env[x := m.fp.fadd(env[x], d)], w)
  {
    hide Grows, WellNumbered, Contains, Matches, SlotsExist, SlotsDistinct, SameScope, Reaches, Keeps, NextValue, Emit;
    var a := NextValue(s, slot, step);
    var v := Temp(s.nextTemp + 1);
    NextValueGrows(s, slot, step);
    EmitGrows(a, Store(v, slot));
    ContainsEarlier(f, a, Increment(s, slot, step));
    var c1 := NextValueRuns(f, m, x, slot, step, d, s, c, env, w);
    c2 := StoreBoundRuns(f, m, x, slot, v, m.fp.fadd(env[x], d), a, c1, env, w);
    ReachesTransitive(f, m, c, c1, c2);
    KeepsTransitive(s, a, c, c1, c2, {}, {x});
    KeepsMore(s, c, c2, {} + {x}, {x});
    SameScopeTransitive(s, a, Increment(s, slot, step));
  }

  /** A store to the slot of a bound name is an assignment. */
  lemma StoreBoundRuns(f: Function, m: Machine, x: string, slot: nat, v: Operand, d: Double, s: GenState, c: Config,
          env: Env, w: World)
    returns (c2: Config)
    requires Ready(f, m, s, c, env, w) && Lookup(s, x) == Some(slot) && Value(v, c) == Some(d)
    requires Contains(f, Emit(s, Store(v, slot)))
    ensures x in env && Reaches(f.blocks, m, c, c2) && Keeps(s, c, c2, {x}) && SameScope(s, Emit(s, Store(v, slot)))
    ensures Ready(f, m, Emit(s, Store(v, slot)), c2, env[x := d], w) && Value(v, c2) == Some(d)
  {
    var t := Emit(s, Store(v, slot));
    assert x in env;
    c2 := StoreRuns(f, m, slot, v, d, s, c);
    forall y ensures Lookup(t, y) == Lookup(s, y) && (Lookup(s, y) == Some(slot) ==> y == x) {}
    assert Owned(s, slot, {x});
    EmitGrows(s, Store(v, slot));
    SameScopeWellFormed(s, t);
  }

  lemma NextValueGrows(s: GenState, slot: nat, step: Operand)
    requires WellNumbered(s)
    ensures Grows(s, NextValue(s, slot, step))
  {
    var l := Define(s, Load(s.nextTemp, slot)).s;
    DefineGrows(s, Load(s.nextTemp, slot));
    DefineGrows(l, FBinary(l.nextTemp, FAdd, Temp(s.nextTemp), step));
    GrowsTransitive(s, l, NextValue(s, slot, step));
  }

  /** The whole end of a round: increment, test, and back to the loop block or out of the loop. */
  lemma TailRuns(f: Function, m: Machine, x: string, slot: nat, step: Operand, end: Operand, d: Double, b: Double,
          loop: nat, s: GenState, c: Config, env: Env, w: World)
    returns (c2: Config)
    requires Ready(f, m, s, c, env, w) && Lookup(s, x) == Some(slot)
    requires Value(step, c) == Some(d) && Lasting(step, s) && Value(end, c) == Some(b) && Lasting(end, s)
    requires Contains(f, ForTail(s, slot, step, end, loop))
    ensures x in env && Advances(f, m, c, c2) && Keeps(s, c, c2, {x}) && c2.world == w && Allocated(f, c2)
    ensures Matches(env[x := m.fp.fadd(env[x], d)], s, c2)
    ensures c2.pc == 0 && c2.block == if m.fp.fcmpONE(b, m.fp.zero) then loop else ForTail(s, slot, step, end, loop).cur
  {
    hide Grows, SlotsExist, SlotsDistinct, Reaches, Advances, Keeps, Increment, Contains, WellNumbered, ForTail, Emit;
    var t := Increment(s, slot, step);
    var n := t.nextBlock;
    TailContains(f, s, slot, step, end, loop);
    var c1 := IncrementRuns(f, m, x, slot, step, d, s, c, env, w);
    LastingValue(s, c, c1, {x}, end);
    var next := env[x := m.fp.fadd(env[x], d)];
    c2 := BranchRuns(f, m, end, b, loop, n, t, c1, next, w);
    AdvancesAfter(f, m, c, c1, c2);
    KeepsTransitive(s, t, c, c1, c2, {x}, {});
    KeepsMore(s, c, c2, {x} + {}, {x});
    forall y ensures Lookup(t, y) == Lookup(s, y) {}
  }

  /** What contains the block after a loop contains the branch to it. */
  lemma TailContains(f: Function, s: GenState, slot: nat, step: Operand, end: Operand, loop: nat)
    requires WellNumbered(s) && Contains(f, ForTail(s, slot, step, end, loop))
    ensures var t := Increment(s, slot, step);
      var q := Define(t, FCmpONE(t.nextTemp, end, Const(t.zero))).s;
      && Contains(f, t) && Contains(f, Emit(q, CondBr(Temp(t.nextTemp), loop, t.nextBlock)))
      && ForTail(s, slot, step, end, loop).cur == t.nextBlock
  {
    hide Increment, Grows;
    var t := Increment(s, slot, step);
    assert t.zero == s.zero by { IncrementGrows(s, slot, step); SameConstants(s, t); }
    var q := Define(t, FCmpONE(t.nextTemp, end, Const(s.zero))).s;
    IncrementGrows(s, slot, step);
    GrownWellNumbered(s, t);
    DefineGrows(t, FCmpONE(t.nextTemp, end, Const(s.zero)));
    GrownWellNumbered(t, q);
    var br := Emit(q, CondBr(Temp(t.nextTemp), loop, q.nextBlock));
    EmitGrows(q, CondBr(Temp(t.nextTemp), loop, q.nextBlock));
    ContainsStart(f, br.(nextBlock := q.nextBlock + 1), q.nextBlock);
    hide Emit, WellNumbered, ForTail;
    assert Contains(f, br);
    ContainsEarlier(f, q, br);
    ContainsEarlier(f, t, q);
  }

  lemma IncrementGrows(s: GenState, slot: nat, step: Operand)
    requires WellNumbered(s)
    ensures Grows(s, Increment(s, slot, step))
  {
    var a := NextValue(s, slot, step);
    NextValueGrows(s, slot, step);
    EmitGrows(a, Store(Temp(s.nextTemp + 1), slot));
    GrowsTransitive(s, a, Increment(s, slot, step));
  }
}
