/** A direct evaluator for expressions. It works on values in an environment and knows nothing of
    blocks, stack slots or registers: it is the meaning the generated code is measured against. */
module KaleidoscopeEval {
  import opened Wrappers
  import opened KaleidoscopeAst

  /** Whatever functions outside the expression may read and change: output, counters, other modules. */
  type World(==, !new)

  /** Floating-point operations, named after the instructions that perform them. */
  datatype Arithmetic = Arithmetic(
    fadd: (Double, Double) -> Double,
    fsub: (Double, Double) -> Double,
    fmul: (Double, Double) -> Double,
    fcmpULT: (Double, Double) -> bool,
    fcmpONE: (Double, Double) -> bool,
    uitofp: bool -> Double,
    zero: Double,
    one: Double)

  datatype Returned = Returned(val: Double, world: World)

  /** The arithmetic in force, and what a call does; None is a call that never returns. */
  datatype Machine = Machine(fp: Arithmetic, callee: (World, string, seq<Double>) -> Option<Returned>)

  type Env = map<string, Double>

  /** Done carries the value and the state left behind. Stuck means a call did not return or a name is
      unbound; OutOfFuel means the loop-iteration budget ran out. */
  datatype Outcome<+T> = Done(value: T, env: Env, world: World) | Stuck | OutOfFuel {
    function Fail<U>(): Outcome<U>
      requires !Done?
    {
      if Stuck? then Stuck else OutOfFuel
    }
  }

  function EvalCall(m: Machine, f: string, args: seq<Double>, env: Env, w: World): Outcome<Double> {
    match m.callee(w, f, args)
    case None => Stuck
    case Some(r) => Done(r.val, env, r.world)
  }

  function EvalBinary(m: Machine, op: char, a: Double, b: Double, env: Env, w: World): Outcome<Double> {
    match op
    case '+' => Done(m.fp.fadd(a, b), env, w)
    case '-' => Done(m.fp.fsub(a, b), env, w)
    case '*' => Done(m.fp.fmul(a, b), env, w)
    case '<' => Done(m.fp.uitofp(m.fp.fcmpULT(a, b)), env, w)
    case _ => EvalCall(m, BinaryName(op), [a, b], env, w)
  }

  function EvalAssign(x: string, r: Outcome<Double>): Outcome<Double> {
    if !r.Done? then r
    else if x in r.env then r.(env := r.env[x := r.value])
    else Stuck
  }

  /** Ends the scope of x: env gets back what outer said of x, present or absent. */
  function Restore(env: Env, x: string, outer: Env): Env {
    if x in outer then env[x := outer[x]] else env - {x}
  }

  function EvalScope(r: Outcome<Double>, x: string, outer: Env): Outcome<Double> {
    if r.Done? then r.(env := Restore(r.env, x, outer)) else r
  }

  function EvalOption(e: Option<Expr>, default: Double, env: Env, w: World, m: Machine, fuel: nat): Outcome<Double>
    decreases fuel, e
  {
    match e
    case None => Done(default, env, w)
    case Some(init) => Eval(init, env, w, m, fuel)
  }

  function Eval(e: Expr, env: Env, w: World, m: Machine, fuel: nat): Outcome<Double>
    decreases fuel, e
  {
    match e
    case Number(d) => Done(d, env, w)
    case Variable(x) => if x in env then Done(env[x], env, w) else Stuck
    case Unary(op, a) =>
      var r := Eval(a, env, w, m, fuel);
      if !r.Done? then r else EvalCall(m, UnaryName(op), [r.value], r.env, r.world)
    case Binary(op, l, r) =>
      if op == '=' then
        if l.Variable? then EvalAssign(l.name, Eval(r, env, w, m, fuel)) else Stuck
      else
        var a := Eval(l, env, w, m, fuel);
        if !a.Done? then a else
        var b := Eval(r, a.env, a.world, m, fuel);
        if !b.Done? then b else EvalBinary(m, op, a.value, b.value, b.env, b.world)
    case Call(f, args) =>
      var r := EvalArgs(e, 0, env, w, m, fuel);
      if !r.Done? then r.Fail() else EvalCall(m, f, r.value, r.env, r.world)
    case If(c, t, f) =>
      var r := Eval(c, env, w, m, fuel);
      if !r.Done? then r
      else if m.fp.fcmpONE(r.value, m.fp.zero) then Eval(t, r.env, r.world, m, fuel)
      else Eval(f, r.env, r.world, m, fuel)
    case For(x, start, _, _, _) =>
      var r := Eval(start, env, w, m, fuel);
      if !r.Done? then r
      else EvalScope(EvalLoop(e, r.env[x := r.value], r.world, m, fuel), x, r.env)
    case VarIn(_, _) => EvalVars(e, 0, env, w, m, fuel)
  }

  /** The values of e.args[i..], evaluated left to right. */
  function EvalArgs(e: Expr, i: nat, env: Env, w: World, m: Machine, fuel: nat): (r: Outcome<seq<Double>>)
    requires e.Call? && i <= |e.args|
    decreases fuel, e, |e.args| - i
  {
    if i == |e.args| then Done([], env, w) else
    var a := Eval(e.args[i], env, w, m, fuel);
    if !a.Done? then a.Fail() else
    var rest := EvalArgs(e, i + 1, a.env, a.world, m, fuel);
    if !rest.Done? then rest else rest.(value := [a.value] + rest.value)
  }

  /** Binds e.vars[i..] one after the other, each initializer seeing the names before it, runs the body
      and ends the scopes innermost first. */
  function EvalVars(e: Expr, i: nat, env: Env, w: World, m: Machine, fuel: nat): Outcome<Double>
    requires e.VarIn? && i <= |e.vars|
    decreases fuel, e, |e.vars| - i
  {
    if i == |e.vars| then Eval(e.body, env, w, m, fuel) else
    var r := EvalOption(e.vars[i].init, m.fp.zero, env, w, m, fuel);
    if !r.Done? then r else
    EvalScope(EvalVars(e, i + 1, r.env[e.vars[i].name := r.value], r.world, m, fuel), e.vars[i].name, r.env)
  }

  /** The loop proper: body, step, end condition, increment, and round again while the condition holds. */
  function EvalLoop(e: Expr, env: Env, w: World, m: Machine, fuel: nat): Outcome<Double>
    requires e.For?
    decreases fuel, e, 0
  {
    if fuel == 0 then OutOfFuel else
    var b := Eval(e.body, env, w, m, fuel);
    if !b.Done? then b else
    var s := EvalOption(e.step, m.fp.one, b.env, b.world, m, fuel);
    if !s.Done? then s else
    var c := Eval(e.end, s.env, s.world, m, fuel);
    if !c.Done? then c else
    if e.varName !in c.env then Stuck else
    var next := c.env[e.varName := m.fp.fadd(c.env[e.varName], s.value)];
    if m.fp.fcmpONE(c.value, m.fp.zero) then EvalLoop(e, next, c.world, m, fuel - 1)
    else Done(m.fp.zero, next, c.world)
  }
}
