/** The part of C that ast-interpreter runs faithfully, and a plain big-step semantics for it. */
module MiniC {
  /** Every node of a program has an identity of its own; variables and functions are known by their declarations. */
  datatype Expr =
    | Literal(id: nat, value: int)
    | Ref(id: nat, variable: nat)
    | FunctionRef(id: nat)
    | Cast(id: nat, sub: Expr)
    | Plus(id: nat, sub: Expr)
    | Minus(id: nat, sub: Expr)
    | Binary(id: nat, op: Operator, left: Expr, right: Expr)
    | Call(id: nat, callee: Expr, target: Target, args: seq<Expr>)

  datatype Operator = Add | Sub | Mul | Lt | Gt | Ge | Le | Eq | Ne

  /** The library's GET, or a function of the program. */
  datatype Target = Input | User(index: nat)

  datatype Declarator = Plain(variable: nat) | Initialised(variable: nat, init: Expr)

  datatype Stmt =
    | Declare(decls: seq<Declarator>)
    | Assign(id: nat, leftId: nat, variable: nat, right: Expr)
    | Evaluate(expr: Expr)
    | Output(id: nat, callee: Expr, arg: Expr)
    | If(cond: Expr, yes: Block, no: Block)
    | While(cond: Expr, body: Block)

  datatype Block = End | Then(first: Stmt, rest: Block)

  /** The one return is the last statement. */
  datatype Function = Function(params: seq<nat>, body: Block, returnId: nat, result: Expr)

  type Program = seq<Function>

  // ----- What the C front end guarantees -----

  function Ids(e: Expr): set<nat>
    decreases e, 1, 0
  {
    match e
    case Literal(id, _) => {id}
    case Ref(id, _) => {id}
    case FunctionRef(id) => {id}
    case Cast(id, sub) => {id} + Ids(sub)
    case Plus(id, sub) => {id} + Ids(sub)
    case Minus(id, sub) => {id} + Ids(sub)
    case Binary(id, _, left, right) => {id} + Ids(left) + Ids(right)
    case Call(id, callee, _, args) => {id} + Ids(callee) + ArgIds(e, |args|)
  }

  /** The nodes of the first n arguments. */
  function ArgIds(e: Expr, n: nat): set<nat>
    requires e.Call? && n <= |e.args|
    decreases e, 0, n
  {
    if n == 0 then {} else ArgIds(e, n - 1) + Ids(e.args[n - 1])
  }

  const INT_MAX := 0x7fff_ffff
  const INT_MIN := -0x8000_0000

  predicate IsInt(v: int) {
    INT_MIN <= v <= INT_MAX
  }

  /** No two nodes are the same, literals are ints, and functions are called with as many arguments as they take. */
  predicate ExprOk(p: Program, e: Expr) {
    match e
    case Literal(_, value) => IsInt(value)
    case Ref(_, _) => true
    case FunctionRef(_) => true
    case Cast(id, sub) => ExprOk(p, sub) && id !in Ids(sub)
    case Plus(id, sub) => ExprOk(p, sub) && id !in Ids(sub)
    case Minus(id, sub) => ExprOk(p, sub) && id !in Ids(sub)
    case Binary(id, _, left, right) =>
      ExprOk(p, left) && ExprOk(p, right) && Ids(left) !! Ids(right) && id !in Ids(left) + Ids(right)
    case Call(id, callee, target, args) =>
      && callee.Cast? && callee.sub.FunctionRef? && callee.id != callee.sub.id
      && (forall i :: 0 <= i < |args| ==> ExprOk(p, args[i]) && id !in Ids(args[i]) && Ids(callee) !! Ids(args[i]))
      && (forall i, j :: 0 <= i < j < |args| ==> Ids(args[i]) !! Ids(args[j]))
      && id !in Ids(callee)
      && match target
         case Input => args == []
         case User(k) => k < |p| && |args| == |p[k].params|
  }

  /** The variables an expression reads. */
  function Reads(e: Expr): set<nat>
    decreases e, 1, 0
  {
    match e
    case Ref(_, x) => {x}
    case Cast(_, sub) => Reads(sub)
    case Plus(_, sub) => Reads(sub)
    case Minus(_, sub) => Reads(sub)
    case Binary(_, _, left, right) => Reads(left) + Reads(right)
    case Call(_, _, _, args) => ArgReads(e, |args|)
    case _ => {}
  }

  function ArgReads(e: Expr, n: nat): set<nat>
    requires e.Call? && n <= |e.args|
    decreases e, 0, n
  {
    if n == 0 then {} else ArgReads(e, n - 1) + Reads(e.args[n - 1])
  }

  /** No initialiser reads a variable declared before it in the same statement. */
  predicate NoEarlierReads(decls: seq<Declarator>) {
    forall i, j :: 0 <= i < j < |decls| && decls[j].Initialised? ==> decls[i].variable !in Reads(decls[j].init)
  }

  predicate DeclsOk(p: Program, decls: seq<Declarator>) {
    && (forall i :: 0 <= i < |decls| && decls[i].Initialised? ==> ExprOk(p, decls[i].init))
    && (forall i, j :: 0 <= i < j < |decls| && decls[i].Initialised? && decls[j].Initialised? ==>
      Ids(decls[i].init) !! Ids(decls[j].init))
  }

  predicate StmtOk(p: Program, s: Stmt) {
    match s
    case Declare(decls) => DeclsOk(p, decls) && NoEarlierReads(decls)
    case Assign(_, leftId, _, right) => ExprOk(p, right) && leftId !in Ids(right)
    case Evaluate(expr) => ExprOk(p, expr)
    case Output(_, callee, arg) =>
      && callee.Cast? && callee.sub.FunctionRef? && callee.id != callee.sub.id
      && ExprOk(p, arg) && Ids(callee) !! Ids(arg)
    case If(cond, yes, no) => ExprOk(p, cond) && BlockOk(p, yes) && BlockOk(p, no)
    case While(cond, body) => ExprOk(p, cond) && BlockOk(p, body)
  }

  predicate BlockOk(p: Program, b: Block) {
    b.End? || (StmtOk(p, b.first) && BlockOk(p, b.rest))
  }

  predicate ProgramOk(p: Program) {
    forall k :: 0 <= k < |p| ==> BlockOk(p, p[k].body) && ExprOk(p, p[k].result)
  }

  // ----- Big-step semantics -----

  type Vars = map<nat, int>

  /** What GET still finds and what PRINT has written. */
  datatype World = World(input: seq<int>, output: seq<int>)

  /** Undefined is where C has no answer: overflow, or a variable that does not exist. Fuel bounds the number of calls
      and of turns of loops inside each other and one after the other. */
  datatype Result<T> = Done(value: T, world: World) | Undefined(world: World) | OutOfFuel(world: World)

  function Lift<T, U>(r: Result<T>): (s: Result<U>)
    requires !r.Done?
    ensures !s.Done? && s.world == r.world && s.Undefined? == r.Undefined?
  {
    match r
    case Undefined(w) => Undefined(w)
    case OutOfFuel(w) => OutOfFuel(w)
  }

  function Truth(b: bool): int {
    if b then 1 else 0
  }

  /** The exact result, which may not be an int. */
  function Apply(op: Operator, a: int, b: int): int {
    match op
    case Add => a + b
    case Sub => a - b
    case Mul => a * b
    case Lt => Truth(a < b)
    case Gt => Truth(a > b)
    case Ge => Truth(a >= b)
    case Le => Truth(a <= b)
    case Eq => Truth(a == b)
    case Ne => Truth(a != b)
  }

  function Fit(v: int, w: World): Result<int> {
    if IsInt(v) then Done(v, w) else Undefined(w)
  }

  /** GET leaves its result at 0 when there is nothing to read. */
  function ReadInput(w: World): (r: Result<int>)
    ensures r.Done?
  {
    if w.input == [] then Done(0, w) else Done(w.input[0], w.(input := w.input[1..]))
  }

  function Eval(p: Program, fuel: nat, vars: Vars, e: Expr, w: World): Result<int>
    decreases fuel, 1, e, 1, 0
  {
    match e
    case Literal(_, value) => Done(value, w)
    case Ref(_, x) => if x in vars then Done(vars[x], w) else Undefined(w)
    case FunctionRef(_) => Done(0, w)
    case Cast(_, sub) => Eval(p, fuel, vars, sub, w)
    case Plus(_, sub) => Eval(p, fuel, vars, sub, w)
    case Minus(_, sub) =>
      var r := Eval(p, fuel, vars, sub, w);
      if r.Done? then Fit(-r.value, r.world) else r
    case Binary(_, op, left, right) =>
      var l := Eval(p, fuel, vars, left, w);
      if !l.Done? then l
      else
        var r := Eval(p, fuel, vars, right, l.world);
        if r.Done? then Fit(Apply(op, l.value, r.value), r.world) else r
    case Call(_, _, target, _) =>
      if target.Input? then ReadInput(w)
      else
        var a := EvalArgs(p, fuel, vars, e, [], w);
        if a.Done? then CallUser(p, fuel, target.index, a.value, a.world) else Lift(a)
  }

  /** The arguments after those already evaluated, from left to right. */
  function EvalArgs(p: Program, fuel: nat, vars: Vars, e: Expr, values: seq<int>, w: World): Result<seq<int>>
    requires e.Call?
    decreases fuel, 1, e, 0, |e.args| - |values|
  {
    if |values| >= |e.args| then Done(values, w)
    else
      var r := Eval(p, fuel, vars, e.args[|values|], w);
      if r.Done? then EvalArgs(p, fuel, vars, e, values + [r.value], r.world) else Lift(r)
  }

  function Bind(params: seq<nat>, values: seq<int>): Vars {
    if params == [] || values == [] then map[]
    else
      var n := if |params| < |values| then |params| else |values|;
      Bind(params[..n - 1], values[..n - 1])[params[n - 1] := values[n - 1]]
  }

  /** A call runs in variables of its own. */
  function CallUser(p: Program, fuel: nat, k: nat, values: seq<int>, w: World): Result<int>
    decreases fuel, 0
  {
    if k >= |p| then Undefined(w)
    else if fuel == 0 then OutOfFuel(w)
    else
      var r := ExecBlock(p, fuel - 1, Bind(p[k].params, values), p[k].body, w);
      if r.Done? then Eval(p, fuel - 1, r.value, p[k].result, r.world) else Lift(r)
  }

  function Exec(p: Program, fuel: nat, vars: Vars, s: Stmt, w: World): Result<Vars>
    decreases fuel, 3, s, 1
  {
    match s
    case Declare(decls) => ExecDecls(p, fuel, vars, decls, w)
    case Assign(_, _, x, right) =>
      if x !in vars then Undefined(w)
      else
        var r := Eval(p, fuel, vars, right, w);
        if r.Done? then Done(vars[x := r.value], r.world) else Lift(r)
    case Evaluate(expr) =>
      var r := Eval(p, fuel, vars, expr, w);
      if r.Done? then Done(vars, r.world) else Lift(r)
    case Output(_, _, arg) =>
      var r := Eval(p, fuel, vars, arg, w);
      if r.Done? then Done(vars, r.world.(output := r.world.output + [r.value])) else Lift(r)
    case If(cond, yes, no) =>
      var c := Eval(p, fuel, vars, cond, w);
      if !c.Done? then Lift(c) else ExecBlock(p, fuel, vars, if c.value != 0 then yes else no, c.world)
    case While(cond, _) =>
      var c := Eval(p, fuel, vars, cond, w);
      if !c.Done? then Lift(c) else AfterCond(p, fuel, vars, s, c.value, c.world)
  }

  /** The rest of a loop, its condition having been evaluated. */
  function AfterCond(p: Program, fuel: nat, vars: Vars, s: Stmt, cond: int, w: World): Result<Vars>
    requires s.While?
    decreases fuel, 3, s, 0
  {
    if cond == 0 then Done(vars, w)
    else
      var r := ExecBlock(p, fuel, vars, s.body, w);
      if !r.Done? then r
      else if fuel == 0 then OutOfFuel(r.world)
      else Exec(p, fuel - 1, r.value, s, r.world)
  }

  /** One after the other; without an initialiser a variable starts at 0. */
  function ExecDecls(p: Program, fuel: nat, vars: Vars, decls: seq<Declarator>, w: World): Result<Vars>
    decreases fuel, 2, |decls|
  {
    if decls == [] then Done(vars, w)
    else match decls[0]
      case Plain(x) => ExecDecls(p, fuel, vars[x := 0], decls[1..], w)
      case Initialised(x, init) =>
        var r := Eval(p, fuel, vars, init, w);
        if r.Done? then ExecDecls(p, fuel, vars[x := r.value], decls[1..], r.world) else Lift(r)
  }

  function ExecBlock(p: Program, fuel: nat, vars: Vars, b: Block, w: World): Result<Vars>
    decreases fuel, 3, b, 0
  {
    match b
    case End => Done(vars, w)
    case Then(first, rest) =>
      var r := Exec(p, fuel, vars, first, w);
      if r.Done? then ExecBlock(p, fuel, r.value, rest, r.world) else r
  }
}
