/** What code generation does to the state of the generator, as functions: the specification the methods
    of CodeGenerator are proved against, and the subject of the theorems about the generated code. */
module CodeGenSpec {
  import opened Wrappers
  import opened KaleidoscopeAst
  import opened Ir

  /** The function table, the function under construction, the insertion block, the counters behind fresh
      blocks and registers, and the name table. A name bound to None is one bound to a null pointer. */
  datatype GenState = GenState(
    funcs: map<string, nat>,
    zero: Double,
    one: Double,
    blocks: map<nat, seq<Instr>>,
    cur: nat,
    nextBlock: nat,
    nextTemp: nat,
    allocas: seq<Alloca>,
    named: map<string, Option<nat>>)

  /** Code is always appended to a block that is in the function. */
  ghost predicate HasInsertBlock(s: GenState) {
    s.cur in s.blocks
  }

  /** What codegen returns, a value or null, and the state it leaves. */
  datatype Result = Result(v: Option<Operand>, s: GenState)

  /** The same for a list of values. */
  datatype ArgsResult = ArgsResult(vs: Option<seq<Operand>>, s: GenState)

  /** The same for a var list and its body, with the bindings that the list replaced. */
  datatype VarsResult = VarsResult(v: Option<Operand>, s: GenState, olds: seq<Option<nat>>)

  function Lookup(s: GenState, x: string): Option<nat> {
    if x in s.named then s.named[x] else None
  }

  /** Looking a name up with [] binds an absent name to null. */
  function Touch(s: GenState, x: string): GenState {
    if x in s.named then s else s.(named := s.named[x := None])
  }

  function Bind(s: GenState, x: string, slot: nat): GenState {
    s.(named := s.named[x := Some(slot)])
  }

  function Emit(s: GenState, i: Instr): GenState {
    if s.cur in s.blocks then s.(blocks := s.blocks[s.cur := s.blocks[s.cur] + [i]]) else s
  }

  /** Emits an instruction whose result is the next fresh register. */
  function Define(s: GenState, i: Instr): Result {
    Result(Some(Temp(s.nextTemp)), Emit(s, i).(nextTemp := s.nextTemp + 1))
  }

  function StartBlock(s: GenState, id: nat): GenState {
    s.(blocks := s.blocks[id := []], cur := id)
  }

  function NewAlloca(s: GenState, x: string): GenState {
    s.(allocas := [Alloca(|s.allocas|, x)] + s.allocas)
  }

  function GenVariable(x: string, s: GenState): Result {
    var slot := Lookup(s, x);
    var t := Touch(s, x);
    if slot.None? then Result(None, t) else Define(t, Load(t.nextTemp, slot.value))
  }

  function GenCall(f: string, vs: seq<Operand>, s: GenState): Result {
    if f in s.funcs then Define(s, CallFn(s.nextTemp, f, vs)) else Result(None, s)
  }

  function GenAssign(x: string, v: Operand, s: GenState): Result {
    var slot := Lookup(s, x);
    var t := Touch(s, x);
    if slot.None? then Result(None, t) else Result(Some(v), Emit(t, Store(v, slot.value)))
  }

  function GenBinary(op: char, a: Operand, b: Operand, s: GenState): Result {
    match op
    case '+' => Define(s, FBinary(s.nextTemp, FAdd, a, b))
    case '-' => Define(s, FBinary(s.nextTemp, FSub, a, b))
    case '*' => Define(s, FBinary(s.nextTemp, FMul, a, b))
    case '<' => var c := Define(s, FCmpULT(s.nextTemp, a, b)).s; Define(c, UIToFP(c.nextTemp, Temp(s.nextTemp)))
    case _ => GenCall(BinaryName(op), [a, b], s)
  }

  /** The comparison with 0.0, the conditional branch, and the start of the then block. The blocks then,
      else and merge get the numbers n, n + 1 and n + 2; only the first is put into the function. */
  function IfHead(s: GenState, v: Operand): GenState {
    var c := Define(s, FCmpONE(s.nextTemp, v, Const(s.zero))).s;
    var n := c.nextBlock;
    StartBlock(Emit(c, CondBr(Temp(s.nextTemp), n, n + 1)).(nextBlock := n + 3), n)
  }

  function IfElse(s: GenState, n: nat): GenState {
    StartBlock(Emit(s, Br(n + 2)), n + 1)
  }

  function IfMerge(s: GenState, n: nat, thenV: Operand, thenEnd: nat, elseV: Operand): Result {
    var t := StartBlock(Emit(s, Br(n + 2)), n + 2);
    Define(t, Phi(t.nextTemp, [Incoming(thenV, thenEnd), Incoming(elseV, s.cur)]))
  }

  /** Stores the start value and opens the loop block. */
  function ForHead(s: GenState, slot: nat, start: Operand): GenState {
    var n := s.nextBlock;
    StartBlock(Emit(Emit(s, Store(start, slot)), Br(n)).(nextBlock := n + 1), n)
  }

  /** Reloads the loop variable and adds the step. */
  function NextValue(s: GenState, slot: nat, step: Operand): GenState {
    var l := Define(s, Load(s.nextTemp, slot)).s;
    Define(l, FBinary(l.nextTemp, FAdd, Temp(s.nextTemp), step)).s
  }

  /** The same, and stores the sum. */
  function Increment(s: GenState, slot: nat, step: Operand): GenState {
    Emit(NextValue(s, slot, step), Store(Temp(s.nextTemp + 1), slot))
  }

  /** The increment, the end test and the block after the loop. */
  function ForTail(s: GenState, slot: nat, step: Operand, end: Operand, loop: nat): GenState {
    var t := Increment(s, slot, step);
    var c := Define(t, FCmpONE(t.nextTemp, end, Const(s.zero))).s;
    var n := c.nextBlock;
    StartBlock(Emit(c, CondBr(Temp(t.nextTemp), loop, n)).(nextBlock := n + 1), n)
  }

  /** Ends the scope of a loop variable. */
  function Unbind(s: GenState, x: string, outer: Option<nat>): GenState {
    s.(named := if outer.Some? then s.named[x := outer] else s.named - {x})
  }

  /** Ends the scopes of a var list, first name first. */
  function RestoreNames(named: map<string, Option<nat>>, vars: seq<Binding>, olds: seq<Option<nat>>)
    : map<string, Option<nat>>
    requires |vars| == |olds|
    decreases |vars|
  {
    if vars == [] then named
    else RestoreNames(named[vars[0].name := olds[0]], vars[1..], olds[1..])
  }

  /** An optional expression, or else a constant. */
  function GenOption(e: Option<Expr>, default: Double, s: GenState): Result
    decreases e
  {
    match e
    case None => Result(Some(Const(default)), s)
    case Some(init) => Gen(init, s)
  }

  function Gen(e: Expr, s: GenState): Result
    decreases e
  {
    match e
    case Number(d) => Result(Some(Const(d)), s)
    case Variable(x) => GenVariable(x, s)
    case Unary(op, a) =>
      var r := Gen(a, s);
      if r.v.None? then r else GenCall(UnaryName(op), [r.v.value], r.s)
    case Binary(op, l, r) =>
      if op == '=' then
        if !l.Variable? then Result(None, s) else
        var v := Gen(r, s);
        if v.v.None? then v else GenAssign(l.name, v.v.value, v.s)
      else
        var a := Gen(l, s);
        var b := Gen(r, a.s);
        if a.v.None? || b.v.None? then Result(None, b.s)
        else GenBinary(op, a.v.value, b.v.value, b.s)
    case Call(f, args) =>
      if f !in s.funcs || s.funcs[f] != |args| then Result(None, s) else
      var r := GenArgs(e, 0, s);
      if r.vs.None? then Result(None, r.s) else GenCall(f, r.vs.value, r.s)
    case If(c, t, f) =>
      var rc := Gen(c, s);
      if rc.v.None? then rc else
      var rt := Gen(t, IfHead(rc.s, rc.v.value));
      if rt.v.None? then rt else
      var rf := Gen(f, IfElse(rt.s, rc.s.nextBlock));
      if rf.v.None? then rf else
      IfMerge(rf.s, rc.s.nextBlock, rt.v.value, rt.s.cur, rf.v.value)
    case For(x, start, end, step, body) =>
      var slot := |s.allocas|;
      var rs := Gen(start, NewAlloca(s, x));
      if rs.v.None? then rs else
      var head := ForHead(rs.s, slot, rs.v.value);
      var rb := Gen(body, Bind(head, x, slot));
      if rb.v.None? then rb else
      var rp := GenOption(step, s.one, rb.s);
      if rp.v.None? then rp else
      var re := Gen(end, rp.s);
      if re.v.None? then re else
      var tail := ForTail(re.s, slot, rp.v.value, re.v.value, head.cur);
      Result(Some(Const(s.zero)), Unbind(tail, x, Lookup(head, x)))
    case VarIn(vars, _) =>
      var r := GenVars(e, 0, s);
      if r.v.None? then Result(None, r.s)
      else Result(r.v, r.s.(named := RestoreNames(r.s.named, vars, r.olds)))
  }

  /** The values of e.args[i..]. */
  function GenArgs(e: Expr, i: nat, s: GenState): ArgsResult
    requires e.Call? && i <= |e.args|
    decreases e, |e.args| - i
  {
    if i == |e.args| then ArgsResult(Some([]), s) else
    var a := Gen(e.args[i], s);
    if a.v.None? then ArgsResult(None, a.s) else
    var rest := GenArgs(e, i + 1, a.s);
    if rest.vs.None? then rest else rest.(vs := Some([a.v.value] + rest.vs.value))
  }

  /** Stores an initial value in a fresh slot and binds x to it. */
  function DeclareVar(s: GenState, x: string, v: Operand): GenState {
    Bind(Emit(NewAlloca(s, x), Store(v, |s.allocas|)), x, |s.allocas|)
  }

  /** Declares e.vars[i..] and generates the body; the names stay bound. */
  function GenVars(e: Expr, i: nat, s: GenState): (r: VarsResult)
    requires e.VarIn? && i <= |e.vars|
    ensures r.v.Some? ==> |r.olds| == |e.vars| - i
    decreases e, |e.vars| - i
  {
    if i == |e.vars| then var r := Gen(e.body, s); VarsResult(r.v, r.s, []) else
    var r := GenOption(e.vars[i].init, s.zero, s);
    if r.v.None? then VarsResult(None, r.s, []) else
    var rest := GenVars(e, i + 1, DeclareVar(r.s, e.vars[i].name, r.v.value));
    rest.(olds := [Lookup(r.s, e.vars[i].name)] + rest.olds)
  }

  /** The generator when a function is begun: an empty entry block and an empty name table. */
  function EmptyFunction(funcs: map<string, nat>, zero: Double, one: Double): GenState {
    GenState(funcs, zero, one, map[0 := []], 0, 1, 0, [], map[])
  }

  /** Gives params[i..] their slots. */
  function GenParams(params: seq<string>, i: nat, s: GenState): GenState
    requires i <= |params|
    decreases |params| - i
  {
    if i == |params| then s else GenParams(params, i + 1, DeclareVar(s, params[i], Param(i)))
  }

  /** A whole function, or None if its body is in error and the function is removed. */
  function GenFunction(params: seq<string>, body: Expr, funcs: map<string, nat>, zero: Double,
          one: Double): Option<Function> {
    var r := Gen(body, GenParams(params, 0, EmptyFunction(funcs, zero, one)));
    if r.v.None? then None else Some(Function(r.s.allocas, Emit(r.s, Ret(r.v.value)).blocks))
  }
}
