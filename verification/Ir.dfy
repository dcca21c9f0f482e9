/** The fragment of LLVM IR the code generator emits, with a small-step machine for it. */
module Ir {
  import opened Wrappers
  import opened KaleidoscopeAst
  import opened KaleidoscopeEval

  datatype Operand = Const(d: Double) | Temp(id: nat) | Param(index: nat)

  datatype FOp = FAdd | FSub | FMul

  datatype Incoming = Incoming(val: Operand, from: nat)

  datatype Instr =
    | Store(val: Operand, slot: nat)
    | Load(dst: nat, slot: nat)
    | FBinary(dst: nat, fop: FOp, a: Operand, b: Operand)
    | FCmpULT(dst: nat, a: Operand, b: Operand)
    | FCmpONE(dst: nat, a: Operand, b: Operand)
    | UIToFP(dst: nat, a: Operand)
    | CallFn(dst: nat, callee: string, args: seq<Operand>)
    | Phi(dst: nat, incoming: seq<Incoming>)
    | Br(target: nat)
    | CondBr(cond: Operand, ifTrue: nat, ifFalse: nat)
    | Ret(val: Operand)
  {
    predicate IsTerminator() {
      Br? || CondBr? || Ret?
    }
  }

  datatype Alloca = Alloca(slot: nat, name: string)

  /** Block 0 is the entry block: the allocas, newest first, and then blocks[0]. */
  datatype Function = Function(allocas: seq<Alloca>, blocks: map<nat, seq<Instr>>)

  datatype Reg = DoubleReg(d: Double) | BoolReg(b: bool)

  /** An allocated slot holds None until the first store. */
  datatype Config = Config(
    block: nat,
    prev: Option<nat>,
    pc: nat,
    regs: map<nat, Reg>,
    mem: map<nat, Option<Double>>,
    args: seq<Double>,
    world: World)

  datatype Next = Goto(c: Config) | Return(r: Returned) | Halt

  function Value(v: Operand, c: Config): Option<Double> {
    match v
    case Const(d) => Some(d)
    case Temp(t) => if t in c.regs && c.regs[t].DoubleReg? then Some(c.regs[t].d) else None
    case Param(i) => if i < |c.args| then Some(c.args[i]) else None
  }

  function Flag(v: Operand, c: Config): Option<bool> {
    if v.Temp? && v.id in c.regs && c.regs[v.id].BoolReg? then Some(c.regs[v.id].b) else None
  }

  function Values(vs: seq<Operand>, c: Config): Option<seq<Double>> {
    if vs == [] then Some([]) else
    var v := Value(vs[0], c);
    var rest := Values(vs[1..], c);
    if v.Some? && rest.Some? then Some([v.value] + rest.value) else None
  }

  function SetReg(c: Config, dst: nat, r: Reg): Next {
    Goto(c.(regs := c.regs[dst := r], pc := c.pc + 1))
  }

  function Jump(c: Config, target: nat): Next {
    Goto(c.(block := target, prev := Some(c.block), pc := 0))
  }

  function FApply(fp: Arithmetic, op: FOp, a: Double, b: Double): Double {
    match op
    case FAdd => fp.fadd(a, b)
    case FSub => fp.fsub(a, b)
    case FMul => fp.fmul(a, b)
  }

  function PhiOperand(incoming: seq<Incoming>, from: nat): Option<Operand> {
    if incoming == [] then None
    else if incoming[0].from == from then Some(incoming[0].val)
    else PhiOperand(incoming[1..], from)
  }

  function DefineDouble(c: Config, dst: nat, v: Option<Double>): Next {
    if v.Some? then SetReg(c, dst, DoubleReg(v.value)) else Halt
  }

  function Execute(i: Instr, m: Machine, c: Config): Next {
    match i
    case Store(v, slot) =>
      var d := Value(v, c);
      if d.Some? && slot in c.mem then Goto(c.(mem := c.mem[slot := d], pc := c.pc + 1)) else Halt
    case Load(dst, slot) =>
      if slot in c.mem then DefineDouble(c, dst, c.mem[slot]) else Halt
    case FBinary(dst, op, a, b) =>
      var x, y := Value(a, c), Value(b, c);
      if x.Some? && y.Some? then SetReg(c, dst, DoubleReg(FApply(m.fp, op, x.value, y.value))) else Halt
    case FCmpULT(dst, a, b) =>
      var x, y := Value(a, c), Value(b, c);
      if x.Some? && y.Some? then SetReg(c, dst, BoolReg(m.fp.fcmpULT(x.value, y.value))) else Halt
    case FCmpONE(dst, a, b) =>
      var x, y := Value(a, c), Value(b, c);
      if x.Some? && y.Some? then SetReg(c, dst, BoolReg(m.fp.fcmpONE(x.value, y.value))) else Halt
    case UIToFP(dst, a) =>
      var x := Flag(a, c);
      if x.Some? then SetReg(c, dst, DoubleReg(m.fp.uitofp(x.value))) else Halt
    case CallFn(dst, f, args) =>
      var vs := Values(args, c);
      if vs.None? then Halt else
      var r := m.callee(c.world, f, vs.value);
      if r.None? then Halt
      else Goto(c.(regs := c.regs[dst := DoubleReg(r.value.val)], world := r.value.world, pc := c.pc + 1))
    case Phi(dst, incoming) =>
      if c.prev.None? then Halt else
      var v := PhiOperand(incoming, c.prev.value);
      if v.None? then Halt else DefineDouble(c, dst, Value(v.value, c))
    case Br(target) => Jump(c, target)
    case CondBr(v, t, f) =>
      var x := Flag(v, c);
      if x.Some? then Jump(c, if x.value then t else f) else Halt
    case Ret(v) =>
      var d := Value(v, c);
      if d.Some? then Return(Returned(d.value, c.world)) else Halt
  }

  /** One instruction; Halt stands for undefined behaviour and for a call that never returns. */
  function Step(blocks: map<nat, seq<Instr>>, m: Machine, c: Config): Next {
    if c.block in blocks && c.pc < |blocks[c.block]| then Execute(blocks[c.block][c.pc], m, c) else Halt
  }

  function Steps(blocks: map<nat, seq<Instr>>, m: Machine, n: nat, c: Config): Option<Config> {
    if n == 0 then Some(c) else
    match Step(blocks, m, c)
    case Goto(c1) => Steps(blocks, m, n - 1, c1)
    case _ => None
  }

  ghost predicate Reaches(blocks: map<nat, seq<Instr>>, m: Machine, c: Config, c2: Config) {
    exists n: nat :: Steps(blocks, m, n, c) == Some(c2)
  }

  lemma {:induction false} StepsCompose(blocks: map<nat, seq<Instr>>, m: Machine, n: nat, k: nat, c: Config)
    requires Steps(blocks, m, n, c).Some?
    ensures Steps(blocks, m, n + k, c) == Steps(blocks, m, k, Steps(blocks, m, n, c).value)
    decreases n
  {
    if n > 0 {
      StepsCompose(blocks, m, n - 1, k, Step(blocks, m, c).c);
    }
  }

  /** A longer run passes through every shorter one. */
  lemma {:induction false} StepsPrefix(blocks: map<nat, seq<Instr>>, m: Machine, n: nat, k: nat, c: Config)
    requires k <= n && Steps(blocks, m, n, c).Some?
    ensures Steps(blocks, m, k, c).Some?
    decreases k
  {
    if k > 0 {
      StepsPrefix(blocks, m, n - 1, k - 1, Step(blocks, m, c).c);
    }
  }
}
