/** The interpreter of ast-interpreter: a visitor that leaves the value of each expression in a table of the top
    stack frame, proved to follow the big-step semantics of MiniC. */
module Interpreter {
  import opened Wrappers
  import opened MiniC
  import opened MiniCFacts

  /** The variables of one call, the values of the nodes visited in it, and the node its pending call is at. */
  datatype Frame = Frame(vars: Vars, exprs: map<nat, int>, pc: Option<nat>) {
    function BindDecl(x: nat, v: int): Frame { this.(vars := vars[x := v]) }

    function GetDeclVal(x: nat): Option<int> { if x in vars then Some(vars[x]) else None }

    function BindStmt(id: nat, v: int): Frame { this.(exprs := exprs[id := v]) }

    function GetStmtVal(id: nat): Option<int> { if id in exprs then Some(exprs[id]) else None }

    function SetPC(id: nat): Frame { this.(pc := Some(id)) }
  }

  const EMPTY := Frame(map[], map[], None)

  /** How visiting a node ends: a failed assertion or an overflow stops the interpreter. */
  datatype Status = Fine | Stopped | Exhausted

  function Last(stack: seq<Frame>): Frame
    requires stack != []
  {
    stack[|stack| - 1]
  }

  class Environment {
    var mStack: seq<Frame>
    var input: seq<int>
    var output: seq<int>

    ghost function Now(): World
      reads this`input, this`output
    {
      World(input, output)
    }

    constructor (input: seq<int>)
      ensures mStack == [] && Now() == World(input, [])
    {
      this.input, mStack, output := input, [], [];
    }

    method Init()
      modifies this`mStack
      ensures mStack == old(mStack) + [EMPTY]
    {
      mStack := mStack + [EMPTY];
    }

    method Back(f: Frame)
      requires mStack != []
      modifies this`mStack
      ensures mStack == old(mStack)[|old(mStack)| - 1 := f]
    {
      mStack := mStack[|mStack| - 1 := f];
    }

    method IntegerLiteral(id: nat, value: int)
      requires mStack != []
      modifies this`mStack
      ensures mStack == old(mStack)[|old(mStack)| - 1 := old(Last(mStack)).BindStmt(id, value)]
    {
      Back(Last(mStack).BindStmt(id, value));
    }

    /** A reference to a function is given the value 0, and so is at first one to a variable. */
    method FunctionDeclRef(id: nat)
      requires mStack != []
      modifies this`mStack
      ensures mStack == old(mStack)[|old(mStack)| - 1 := old(Last(mStack)).SetPC(id).BindStmt(id, 0)]
    {
      Back(Last(mStack).SetPC(id));
      Back(Last(mStack).BindStmt(id, 0));
    }

    method DeclRef(id: nat, x: nat) returns (ok: bool)
      requires mStack != []
      modifies this`mStack
      ensures ok <==> x in old(Last(mStack)).vars
      ensures ok ==> mStack == old(mStack)[|old(mStack)| - 1 :=
          old(Last(mStack)).SetPC(id).BindStmt(id, old(Last(mStack)).vars[x])]
    {
      FunctionDeclRef(id);
      var val := Last(mStack).GetDeclVal(x);
      ok := val.Some?;
      if ok { Back(Last(mStack).BindStmt(id, val.value)); }
      assert ok ==> Last(mStack) == old(Last(mStack)).SetPC(id).BindStmt(id, old(Last(mStack)).vars[x]);
    }

    method Cast(id: nat, sub: nat) returns (ok: bool)
      requires mStack != []
      modifies this`mStack
      ensures ok <==> sub in old(Last(mStack)).exprs
      ensures ok ==> mStack == old(mStack)[|old(mStack)| - 1 :=
          old(Last(mStack)).SetPC(id).BindStmt(id, old(Last(mStack)).exprs[sub])]
    {
      Back(Last(mStack).SetPC(id));
      var val := Last(mStack).GetStmtVal(sub);
      ok := val.Some?;
      if ok { Back(Last(mStack).BindStmt(id, val.value)); }
    }

    method UnaryOp(id: nat, minus: bool, sub: nat) returns (ok: bool)
      requires mStack != []
      modifies this`mStack
      ensures ok <==> sub in old(Last(mStack)).exprs && (minus ==> IsInt(-old(Last(mStack)).exprs[sub]))
      ensures ok ==> mStack == old(mStack)[|old(mStack)| - 1 :=
          var v := old(Last(mStack)).exprs[sub]; old(Last(mStack)).BindStmt(id, if minus then -v else v)]
    {
      var val := Last(mStack).GetStmtVal(sub);
      if val.None? || (minus && !IsInt(-val.value)) { return false; }
      Back(Last(mStack).BindStmt(id, if minus then -val.value else val.value));
      ok := true;
    }

    method BinOp(id: nat, op: Operator, left: nat, right: nat) returns (ok: bool)
      requires mStack != []
      modifies this`mStack
      ensures var f := old(Last(mStack));
        && (ok <==> left in f.exprs && right in f.exprs && IsInt(Apply(op, f.exprs[left], f.exprs[right])))
        && (ok ==> mStack == old(mStack)[|old(mStack)| - 1 := f.BindStmt(id, Apply(op, f.exprs[left], f.exprs[right]))])
    {
      var valLeft, valRight := Last(mStack).GetStmtVal(left), Last(mStack).GetStmtVal(right);
      if valLeft.None? || valRight.None? { return false; }
      var a, b := valLeft.value, valRight.value;
      var v;
      match op {
        case Add => v := a + b;
        case Sub => v := a - b;
        case Mul => v := a * b;
        case Lt => v := if a < b then 1 else 0;
        case Gt => v := if a > b then 1 else 0;
        case Ge => v := if a >= b then 1 else 0;
        case Le => v := if a <= b then 1 else 0;
        case Eq => v := if a == b then 1 else 0;
        case Ne => v := if a != b then 1 else 0;
      }
      if !IsInt(v) { return false; }
      Back(Last(mStack).BindStmt(id, v));
      ok := true;
    }

    /** The value of the right side goes to the node on the left and to its variable, but not to the assignment. */
    method AssignOp(left: nat, x: nat, right: nat) returns (ok: bool)
      requires mStack != []
      modifies this`mStack
      ensures var f := old(Last(mStack));
        && (ok <==> left in f.exprs && right in f.exprs)
        && (ok ==> var g := f.BindStmt(left, f.exprs[right]).BindDecl(x, f.exprs[right]);
              mStack == old(mStack)[|old(mStack)| - 1 := g])
    {
      var valLeft, valRight := Last(mStack).GetStmtVal(left), Last(mStack).GetStmtVal(right);
      if valLeft.None? || valRight.None? { return false; }
      Back(Last(mStack).BindStmt(left, valRight.value));
      Back(Last(mStack).BindDecl(x, valRight.value));
      ok := true;
    }

    /** Declares one variable after the other, all initialisers having been visited. */
    method Decl(decls: seq<Declarator>, ghost values: seq<int>)
      requires mStack != [] && |values| == |decls|
      requires forall i :: 0 <= i < |decls| ==> if decls[i].Plain? then values[i] == 0
                 else decls[i].init.id in Last(mStack).exprs && Last(mStack).exprs[decls[i].init.id] == values[i]
      modifies this`mStack
      ensures mStack == old(mStack)[|old(mStack)| - 1 :=
          old(Last(mStack)).(vars := BindDecls(old(Last(mStack)).vars, decls, values))]
    {
      for i := 0 to |decls|
        invariant |mStack| == |old(mStack)|
        invariant mStack == old(mStack)[|old(mStack)| - 1 :=
            old(Last(mStack)).(vars := BindDecls(old(Last(mStack)).vars, decls, values[..i]))]
      {
        assert values[..i + 1][..i] == values[..i];
        match decls[i]
        case Plain(x) => Back(Last(mStack).BindDecl(x, 0));
        case Initialised(x, init) => Back(Last(mStack).BindDecl(x, Last(mStack).exprs[init.id]));
      }
      assert values[..|decls|] == values;
    }

    method CallInput(id: nat)
      requires mStack != []
      modifies this`mStack, this`input
      ensures Now() == ReadInput(old(Now())).world
      ensures mStack == old(mStack)[|old(mStack)| - 1 :=
          old(Last(mStack)).SetPC(id).BindStmt(id, ReadInput(old(Now())).value)]
    {
      Back(Last(mStack).SetPC(id));
      var val := 0;
      if input != [] { val, input := input[0], input[1..]; }
      Back(Last(mStack).BindStmt(id, val));
    }

    method CallOutput(id: nat, arg: nat) returns (ok: bool)
      requires mStack != []
      modifies this`mStack, this`output
      ensures ok <==> arg in old(Last(mStack)).exprs
      ensures ok ==> mStack == old(mStack)[|old(mStack)| - 1 := old(Last(mStack)).SetPC(id)]
      ensures ok ==> output == old(output) + [old(Last(mStack)).exprs[arg]]
    {
      Back(Last(mStack).SetPC(id));
      var val := Last(mStack).GetStmtVal(arg);
      ok := val.Some?;
      if ok { output := output + [val.value]; }
    }

    /** A call of a function of the program: a frame with the values of the arguments is pushed. */
    method CallUser(id: nat, args: seq<Expr>, params: seq<nat>, ghost values: seq<int>)
      requires mStack != [] && |args| == |params| == |values|
      requires forall i :: 0 <= i < |args| ==>
        args[i].id in Last(mStack).exprs && Last(mStack).exprs[args[i].id] == values[i]
      modifies this`mStack
      ensures mStack == old(mStack)[|old(mStack)| - 1 := old(Last(mStack)).SetPC(id)]
        + [Frame(Bind(params, values), map[], None)]
    {
      Back(Last(mStack).SetPC(id));
      var stack := EMPTY;
      for i := 0 to |args|
        invariant stack == Frame(Bind(params[..i], values[..i]), map[], None)
      {
        assert params[..i + 1][..i] == params[..i] && values[..i + 1][..i] == values[..i];
        stack := stack.BindDecl(params[i], Last(mStack).exprs[args[i].id]);
      }
      assert params[..|args|] == params && values[..|args|] == values;
      mStack := mStack + [stack];
    }

    /** The frame of the call is popped, and its value goes to the node the caller is at. */
    method Ret(id: nat, result: nat)
      requires |mStack| >= 2 && result in Last(mStack).exprs && mStack[|mStack| - 2].pc.Some?
      modifies this`mStack
      ensures var caller := old(mStack)[|old(mStack)| - 2];
        mStack == old(mStack)[..|old(mStack)| - 2] + [caller.BindStmt(caller.pc.value, old(Last(mStack)).exprs[result])]
    {
      var val := Last(mStack).exprs[result];
      Back(Last(mStack).BindStmt(id, val));
      mStack := mStack[..|mStack| - 1];
      Back(Last(mStack).BindStmt(Last(mStack).pc.value, val));
    }
  }

  // ----- What visiting changes -----

  /** The frames below the top, the variables, and the values of all nodes but those in ids are as before. */
  ghost predicate SameBut(s: seq<Frame>, t: seq<Frame>, ids: set<nat>) {
    && |s| == |t| > 0
    && (forall k :: 0 <= k < |s| - 1 ==> t[k] == s[k])
    && Last(t).vars == Last(s).vars
    && (forall i :: i !in ids ==> (i in Last(t).exprs <==> i in Last(s).exprs))
    && (forall i :: i !in ids && i in Last(s).exprs ==> Last(t).exprs[i] == Last(s).exprs[i])
  }

  ghost predicate HasValue(s: seq<Frame>, id: nat, v: int) {
    s != [] && id in Last(s).exprs && Last(s).exprs[id] == v
  }

  /** Visiting e was as the semantics say: its value is at its node, and nothing but its nodes was touched. */
  ghost predicate Evaluated(s: seq<Frame>, t: seq<Frame>, e: Expr, status: Status, w: World, r: Result<int>) {
    && w == r.world
    && match r
       case Done(v, _) => status == Fine && SameBut(s, t, Ids(e)) && HasValue(t, e.id, v)
       case Undefined(_) => status == Stopped
       case OutOfFuel(_) => status == Exhausted
  }

  /** Visiting statements was as the semantics say: the variables are right, and the frames below are as before. */
  ghost predicate Executed(s: seq<Frame>, t: seq<Frame>, status: Status, w: World, r: Result<Vars>) {
    && w == r.world
    && match r
       case Done(vars, _) =>
         && status == Fine && |s| == |t| > 0 && Last(t).vars == vars
         && forall k :: 0 <= k < |s| - 1 ==> t[k] == s[k]
       case Undefined(_) => status == Stopped
       case OutOfFuel(_) => status == Exhausted
  }

  lemma {:induction false} ArgIdsOf(e: Expr, n: nat, i: nat)
    requires e.Call? && i < n <= |e.args|
    ensures Ids(e.args[i]) <= ArgIds(e, n)
  {
    if i < n - 1 { ArgIdsOf(e, n - 1, i); }
  }

  lemma SameButThen(s: seq<Frame>, t: seq<Frame>, u: seq<Frame>, ids: set<nat>, more: set<nat>)
    requires SameBut(s, t, ids) && SameBut(t, u, more)
    ensures SameBut(s, u, ids + more)
  {}

  /** The first arguments have these values. */
  ghost predicate ArgValues(s: seq<Frame>, e: Expr, values: seq<int>)
    requires e.Call?
  {
    |values| <= |e.args| && forall j :: 0 <= j < |values| ==> HasValue(s, e.args[j].id, values[j])
  }

  lemma NoArgValues(s: seq<Frame>, e: Expr)
    requires e.Call?
    ensures ArgValues(s, e, [])
  {}

  /** They keep them when the next argument is visited. */
  lemma ArgValuesKept(p: Program, s: seq<Frame>, t: seq<Frame>, e: Expr, values: seq<int>, v: int)
    requires e.Call? && ExprOk(p, e) && |values| < |e.args| && ArgValues(s, e, values)
    requires SameBut(s, t, Ids(e.args[|values|])) && HasValue(t, e.args[|values|].id, v)
    ensures ArgValues(t, e, values + [v])
  {
    forall j | 0 <= j < |values| ensures HasValue(t, e.args[j].id, values[j]) {
      assert e.args[j].id in Ids(e.args[j]) && Ids(e.args[j]) !! Ids(e.args[|values|]);
      assert HasValue(s, e.args[j].id, values[j]);
    }
  }

  class InterpreterVisitor {
    const program: Program
    const mEnv: Environment

    constructor (program: Program, env: Environment)
      ensures this.program == program && mEnv == env
    {
      this.program, mEnv := program, env;
    }

    method VisitExpr(e: Expr, fuel: nat) returns (status: Status)
      requires ProgramOk(program) && ExprOk(program, e) && mEnv.mStack != []
      modifies mEnv
      decreases fuel, 1, e, 2
      ensures Evaluated(old(mEnv.mStack), mEnv.mStack, e, status, mEnv.Now(),
                Eval(program, fuel, old(Last(mEnv.mStack)).vars, e, old(mEnv.Now())))
    {
      match e
      case Literal(id, value) =>
        mEnv.IntegerLiteral(id, value);
        status := Fine;
      case Ref(id, x) =>
        var ok := mEnv.DeclRef(id, x);
        status := if ok then Fine else Stopped;
      case FunctionRef(id) =>
        mEnv.FunctionDeclRef(id);
        status := Fine;
      case Cast(id, sub) =>
        status := VisitExpr(sub, fuel);
        if status != Fine { return; }
        var ok := mEnv.Cast(id, sub.id);
      case Plus(id, sub) =>
        status := VisitExpr(sub, fuel);
        if status != Fine { return; }
        var ok := mEnv.UnaryOp(id, false, sub.id);
      case Minus(id, sub) =>
        status := VisitExpr(sub, fuel);
        if status != Fine { return; }
        var ok := mEnv.UnaryOp(id, true, sub.id);
        status := if ok then Fine else Stopped;
      case Binary(id, op, left, right) =>
        status := VisitBinary(e, fuel);
      case Call(id, callee, target, args) =>
        status := VisitCall(e, fuel);
    }

    method VisitBinary(e: Expr, fuel: nat) returns (status: Status)
      requires ProgramOk(program) && ExprOk(program, e) && mEnv.mStack != [] && e.Binary?
      modifies mEnv
      decreases fuel, 1, e, 1
      ensures Evaluated(old(mEnv.mStack), mEnv.mStack, e, status, mEnv.Now(),
                Eval(program, fuel, old(Last(mEnv.mStack)).vars, e, old(mEnv.Now())))
    {
      status := VisitExpr(e.left, fuel);
      if status != Fine { return; }
      status := VisitExpr(e.right, fuel);
      if status != Fine { return; }
      var ok := mEnv.BinOp(e.id, e.op, e.left.id, e.right.id);
      status := if ok then Fine else Stopped;
    }

    /** All arguments, from left to right. */
    method VisitArgs(e: Expr, fuel: nat) returns (status: Status, ghost values: seq<int>)
      requires ProgramOk(program) && ExprOk(program, e) && mEnv.mStack != [] && e.Call?
      modifies mEnv
      decreases fuel, 1, e, 0
      ensures var r := EvalArgs(program, fuel, old(Last(mEnv.mStack)).vars, e, [], old(mEnv.Now()));
        && mEnv.Now() == r.world
        && match r
           case Done(vs, _) =>
             && status == Fine && values == vs && |vs| == |e.args|
             && SameBut(old(mEnv.mStack), mEnv.mStack, ArgIds(e, |e.args|))
             && ArgValues(mEnv.mStack, e, vs)
           case Undefined(_) => status == Stopped
           case OutOfFuel(_) => status == Exhausted
    {
      hide HasValue, ArgValues, Eval;
      ghost var vars := Last(mEnv.mStack).vars;
      values, status := [], Fine;
      NoArgValues(mEnv.mStack, e);
      for i := 0 to |e.args|
        invariant status == Fine && |values| == i && mEnv.mStack != []
        invariant SameBut(old(mEnv.mStack), mEnv.mStack, ArgIds(e, i)) && ArgValues(mEnv.mStack, e, values)
        invariant EvalArgs(program, fuel, vars, e, [], old(mEnv.Now()))
               == EvalArgs(program, fuel, vars, e, values, mEnv.Now())
      {
        ghost var before, r := mEnv.mStack, Eval(program, fuel, vars, e.args[i], mEnv.Now());
        assert ExprOk(program, e.args[i]);
        status := VisitExpr(e.args[i], fuel);
        if status != Fine { return; }
        SameButThen(old(mEnv.mStack), before, mEnv.mStack, ArgIds(e, i), Ids(e.args[i]));
        ArgValuesKept(program, before, mEnv.mStack, e, values, r.value);
        values := values + [r.value];
      }
    }

    method VisitCall(e: Expr, fuel: nat) returns (status: Status)
      requires ProgramOk(program) && ExprOk(program, e) && mEnv.mStack != [] && e.Call?
      modifies mEnv
      decreases fuel, 1, e, 1
      ensures Evaluated(old(mEnv.mStack), mEnv.mStack, e, status, mEnv.Now(),
                Eval(program, fuel, old(Last(mEnv.mStack)).vars, e, old(mEnv.Now())))
    {
      assert Eval(program, fuel, Last(mEnv.mStack).vars, e.callee.sub, mEnv.Now()) == Done(0, mEnv.Now());
      status := VisitExpr(e.callee, fuel);
      ghost var values: seq<int>;
      status, values := VisitArgs(e, fuel);
      if status != Fine { return; }
      if e.target.Input? {
        mEnv.CallInput(e.id);
      } else if fuel == 0 {
        status := Exhausted;
      } else {
        status := VisitBody(e, fuel, values);
      }
    }

    /** The callee's frame is pushed, its body and its return are visited in it, and it is gone again. */
    method VisitBody(e: Expr, fuel: nat, ghost values: seq<int>) returns (status: Status)
      requires ProgramOk(program) && ExprOk(program, e) && mEnv.mStack != [] && e.Call? && e.target.User? && fuel > 0
      requires |values| == |e.args| && ArgValues(mEnv.mStack, e, values)
      modifies mEnv
      decreases fuel, 0
      ensures var r := CallUser(program, fuel, e.target.index, values, old(mEnv.Now()));
        && mEnv.Now() == r.world
        && match r
           case Done(v, _) =>
             && status == Fine && SameBut(old(mEnv.mStack), mEnv.mStack, {e.id})
             && HasValue(mEnv.mStack, e.id, v)
           case Undefined(_) => status == Stopped
           case OutOfFuel(_) => status == Exhausted
    {
      hide Eval, Exec, ExecBlock, EvalArgs, Reads, Ids;
      var f := program[e.target.index];
      mEnv.CallUser(e.id, e.args, f.params, values);
      ghost var inside := mEnv.mStack;
      status := VisitBlock(f.body, fuel - 1);
      if status != Fine { return; }
      status := VisitExpr(f.result, fuel - 1);
      if status != Fine { return; }
      assert mEnv.mStack[|inside| - 2] == inside[|inside| - 2];
      mEnv.Ret(f.returnId, f.result.id);
    }

    /** All initialisers, before anything is declared. */
    method VisitInits(decls: seq<Declarator>, fuel: nat) returns (status: Status, ghost values: seq<int>)
      requires ProgramOk(program) && DeclsOk(program, decls) && mEnv.mStack != []
      modifies mEnv
      decreases fuel, 2, 0
      ensures var r := EvalInits(program, fuel, old(Last(mEnv.mStack)).vars, decls, [], old(mEnv.Now()));
        && mEnv.Now() == r.world
        && match r
           case Done(vs, _) =>
             && status == Fine && values == vs && |vs| == |decls|
             && (exists ids :: SameBut(old(mEnv.mStack), mEnv.mStack, ids))
             && forall i :: 0 <= i < |decls| ==>
                  if decls[i].Plain? then vs[i] == 0 else HasValue(mEnv.mStack, decls[i].init.id, vs[i])
           case Undefined(_) => status == Stopped
           case OutOfFuel(_) => status == Exhausted
    {
      ghost var vars := Last(mEnv.mStack).vars;
      ghost var ids: set<nat> := {};
      values, status := [], Fine;
      for i := 0 to |decls|
        invariant status == Fine && |values| == i && mEnv.mStack != []
        invariant SameBut(old(mEnv.mStack), mEnv.mStack, ids)
        invariant forall j :: 0 <= j < i ==>
            if decls[j].Plain? then values[j] == 0 else HasValue(mEnv.mStack, decls[j].init.id, values[j])
        invariant EvalInits(program, fuel, vars, decls, [], old(mEnv.Now()))
          == EvalInits(program, fuel, vars, decls, values, mEnv.Now())
      {
        match decls[i]
        case Plain(_) =>
          values := values + [0];
        case Initialised(_, init) =>
          ghost var r := Eval(program, fuel, vars, init, mEnv.Now());
          status := VisitExpr(init, fuel);
          if status != Fine { return; }
          assert forall j :: 0 <= j < i && decls[j].Initialised? ==> decls[j].init.id !in Ids(init);
          values, ids := values + [r.value], ids + Ids(init);
      }
    }

    method VisitDecl(decls: seq<Declarator>, fuel: nat) returns (status: Status)
      requires ProgramOk(program) && DeclsOk(program, decls) && mEnv.mStack != []
      modifies mEnv
      decreases fuel, 2, 1
      ensures Executed(old(mEnv.mStack), mEnv.mStack, status, mEnv.Now(),
                InitsThenBind(program, fuel, old(Last(mEnv.mStack)).vars, decls, old(mEnv.Now())))
      ensures NoEarlierReads(decls) ==> Executed(old(mEnv.mStack), mEnv.mStack, status, mEnv.Now(),
                ExecDecls(program, fuel, old(Last(mEnv.mStack)).vars, decls, old(mEnv.Now())))
    {
      if NoEarlierReads(decls) { InitsFirst(program, fuel, Last(mEnv.mStack).vars, decls, [], mEnv.Now()); }
      assert decls[0..] == decls;
      ghost var values: seq<int>;
      status, values := VisitInits(decls, fuel);
      if status != Fine { return; }
      mEnv.Decl(decls, values);
    }

    method VisitStmt(s: Stmt, fuel: nat) returns (status: Status)
      requires ProgramOk(program) && StmtOk(program, s) && mEnv.mStack != []
      modifies mEnv
      decreases fuel, 3, s, 1
      ensures Executed(old(mEnv.mStack), mEnv.mStack, status, mEnv.Now(),
                Exec(program, fuel, old(Last(mEnv.mStack)).vars, s, old(mEnv.Now())))
    {
      hide EvalArgs, CallUser, ArgIds;
      match s
      case Declare(decls) =>
        status := VisitDecl(decls, fuel);
      case Assign(_, leftId, x, right) =>
        var ok := mEnv.DeclRef(leftId, x);
        if !ok { return Stopped; }
        status := VisitExpr(right, fuel);
        if status != Fine { return; }
        ok := mEnv.AssignOp(leftId, x, right.id);
      case Evaluate(expr) =>
        status := VisitExpr(expr, fuel);
      case Output(id, callee, arg) =>
        assert Eval(program, fuel, Last(mEnv.mStack).vars, callee.sub, mEnv.Now()) == Done(0, mEnv.Now());
        status := VisitExpr(callee, fuel);
        status := VisitExpr(arg, fuel);
        if status != Fine { return; }
        var ok := mEnv.CallOutput(id, arg.id);
      case If(cond, yes, no) =>
        status := VisitExpr(cond, fuel);
        if status != Fine { return; }
        if Last(mEnv.mStack).exprs[cond.id] != 0 {
          status := VisitBlock(yes, fuel);
        } else {
          status := VisitBlock(no, fuel);
        }
      case While(_, _) =>
        status := VisitWhile(s, fuel);
    }

    method VisitWhile(s: Stmt, fuel: nat) returns (status: Status)
      requires ProgramOk(program) && StmtOk(program, s) && mEnv.mStack != [] && s.While?
      modifies mEnv
      decreases fuel, 3, s, 0
      ensures Executed(old(mEnv.mStack), mEnv.mStack, status, mEnv.Now(),
                Exec(program, fuel, old(Last(mEnv.mStack)).vars, s, old(mEnv.Now())))
    {
      ghost var start, vars := mEnv.mStack, Last(mEnv.mStack).vars;
      status := VisitExpr(s.cond, fuel);
      if status != Fine { return; }
      var cond := Last(mEnv.mStack).exprs[s.cond.id];
      var left: nat := fuel;
      while cond != 0
        invariant status == Fine && left <= fuel && |mEnv.mStack| == |start|
        invariant forall k :: 0 <= k < |start| - 1 ==> mEnv.mStack[k] == start[k]
        invariant Exec(program, fuel, vars, s, old(mEnv.Now()))
               == AfterCond(program, left, Last(mEnv.mStack).vars, s, cond, mEnv.Now())
        decreases left
      {
        status := VisitBlock(s.body, left);
        if status != Fine { return; }
        if left == 0 { return Exhausted; }
        left := left - 1;
        status := VisitExpr(s.cond, left);
        if status != Fine { return; }
        cond := Last(mEnv.mStack).exprs[s.cond.id];
      }
    }

    method VisitBlock(b: Block, fuel: nat) returns (status: Status)
      requires ProgramOk(program) && BlockOk(program, b) && mEnv.mStack != []
      modifies mEnv
      decreases fuel, 3, b, 0
      ensures Executed(old(mEnv.mStack), mEnv.mStack, status, mEnv.Now(),
                ExecBlock(program, fuel, old(Last(mEnv.mStack)).vars, b, old(mEnv.Now())))
    {
      status := Fine;
      if b.Then? {
        status := VisitStmt(b.first, fuel);
        if status != Fine { return; }
        status := VisitBlock(b.rest, fuel);
      }
    }
  }

  /** A run of main: what is read and written, and whether it ends well, is what the semantics say. */
  method Interpret(program: Program, main: Block, input: seq<int>, fuel: nat) returns (status: Status, output: seq<int>)
    requires ProgramOk(program) && BlockOk(program, main)
    ensures var r := ExecBlock(program, fuel, map[], main, World(input, []));
      && output == r.world.output
      && status == match r case Done(_, _) => Fine case Undefined(_) => Stopped case OutOfFuel(_) => Exhausted
  {
    var env := new Environment(input);
    env.Init();
    var visitor := new InterpreterVisitor(program, env);
    status := visitor.VisitBlock(main, fuel);
    output := env.output;
  }
}
