/** Compiler correctness for functions and for modules of functions that call each other. */
module CodeGenFunction {
  import opened Wrappers
  import opened KaleidoscopeAst
  import opened KaleidoscopeEval
  import opened Ir
  import opened CodeGenSpec
  import opened CodeGenFrame
  import opened CodeGenScope
  import opened CodeGenRun
  import opened CodeGenLeaves
  import opened CodeGenCorrect
  import opened CodeGenLeak

  /** Arguments bound to the first n parameters. */
  function ParamEnv(params: seq<string>, args: seq<Double>, n: nat): Env
    requires n <= |params| && |params| == |args|
  {
    if n == 0 then map[] else ParamEnv(params, args, n - 1)[params[n - 1] := args[n - 1]]
  }

  /** Slots 0 to n - 1, allocated and not initialized. */
  function Uninitialized(n: nat): (mem: map<nat, Option<Double>>)
    ensures forall k: nat :: (k in mem <==> k < n) && (k in mem ==> mem[k] == None)
  {
    if n == 0 then map[] else Uninitialized(n - 1)[n - 1 := None]
  }

  /** A call at its first instruction, with every slot allocated and none initialized. */
  function Start(f: Function, args: seq<Double>, w: World): Config {
    Config(0, None, 0, map[], Uninitialized(|f.allocas|), args, w)
  }

  /** The call returns r after n steps. */
  ghost predicate ReturnsAfter(f: Function, m: Machine, n: nat, c: Config, r: Returned) {
    Steps(f.blocks, m, n, c).Some? && Step(f.blocks, m, Steps(f.blocks, m, n, c).value) == Return(r)
  }

  ghost predicate Returns(f: Function, m: Machine, args: seq<Double>, w: World, r: Returned) {
    exists n: nat :: ReturnsAfter(f, m, n, Start(f, args, w), r)
  }

  ghost predicate BodyYields(params: seq<string>, body: Expr, m: Machine, args: seq<Double>, w: World, fuel: nat,
          r: Returned)
    requires |params| == |args|
  {
    var out := Eval(body, ParamEnv(params, args, |params|), w, m, fuel);
    out.Done? && r == Returned(out.value, out.world)
  }

  /** The body evaluates to r, given enough fuel. */
  ghost predicate Yields(params: seq<string>, body: Expr, m: Machine, args: seq<Double>, w: World, r: Returned)
    requires |params| == |args|
  {
    exists fuel: nat :: BodyYields(params, body, m, args, w, fuel, r)
  }

  /** The prologue stores the arguments. */
  lemma {:induction false} ParamsRun(f: Function, m: Machine, params: seq<string>, i: nat, s: GenState, c: Config,
          w: World)
    returns (c2: Config)
    requires i <= |params| == |c.args|
    requires Ready(f, m, s, c, ParamEnv(params, c.args, i), w) && Contains(f, GenParams(params, i, s))
    ensures Reaches(f.blocks, m, c, c2) && c2.args == c.args
    ensures Ready(f, m, GenParams(params, i, s), c2, ParamEnv(params, c.args, |params|), w)
    decreases |params| - i
  {
    hide Contains, Reaches, DeclareVar, Matches, SlotsExist, SlotsDistinct, WellNumbered;
    if i == |params| {
      c2 := c;
      ReachesSelf(f, m, c);
    } else {
      var d := DeclareVar(s, params[i], Param(i));
      DeclareVarGrows(s, params[i], Param(i));
      GrownWellNumbered(s, d);
      ParamsGrow(params, i + 1, d);
      ContainsEarlier(f, d, GenParams(params, i, s));
      var c1 := DeclareRuns(f, m, params[i], Param(i), c.args[i], s, c, ParamEnv(params, c.args, i), w);
      c2 := ParamsRun(f, m, params, i + 1, d, c1, w);
      ReachesTransitive(f, m, c, c1, c2);
    }
  }

  lemma {:induction false} ParamsGrow(params: seq<string>, i: nat, s: GenState)
    requires WellNumbered(s) && i <= |params|
    ensures Grows(s, GenParams(params, i, s)) && WellNumbered(GenParams(params, i, s))
    decreases |params| - i
  {
    GrowsSelf(s);
    if i < |params| {
      var d := DeclareVar(s, params[i], Param(i));
      DeclareVarGrows(s, params[i], Param(i));
      ParamsGrow(params, i + 1, d);
      GrowsTransitive(s, d, GenParams(params, i + 1, d));
    }
  }

  /** From its first instruction on, the function does what the evaluation of its body says, up to the return. */
  lemma FunctionFollows(params: seq<string>, body: Expr, funcs: map<string, nat>, f: Function, m: Machine,
          args: seq<Double>, w: World, fuel: nat)
    returns (c2: Config)
    requires |params| == |args| && LeaksUnused(body)
    requires GenFunction(params, body, funcs, m.fp.zero, m.fp.one) == Some(f)
    ensures var out := Eval(body, ParamEnv(params, args, |params|), w, m, fuel);
      var c := Start(f, args, w);
      if out.Done? then Reaches(f.blocks, m, c, c2) && Step(f.blocks, m, c2) == Return(Returned(out.value, out.world))
      else Fails(f, m, c, c2, out, fuel)
  {
    hide Reaches, Grows, Contains, Ready, Emit, GenParams;
    var e := EmptyFunction(funcs, m.fp.zero, m.fp.one);
    var s := GenParams(params, 0, e);
    var c := Start(f, args, w);
    BodyContained(params, body, funcs, f, m.fp.zero, m.fp.one);
    var c1 := PrologueRuns(params, funcs, f, m, args, w);
    var env := ParamEnv(params, args, |params|);
    c2 := CorrectIfUnused(body, s, f, m, c1, env, w, fuel);
    var out := Eval(body, env, w, m, fuel);
    if out.Done? {
      ReachesTransitive(f, m, c, c1, c2);
      RetReturns(f, m, Gen(body, s), c2, out.value);
    } else {
      FailsLater<Double, Double>(f, m, c, c1, c2, out, fuel);
    }
  }

  /** The finished function contains the code of its prologue and of its body. */
  lemma BodyContained(params: seq<string>, body: Expr, funcs: map<string, nat>, f: Function, zero: Double, one: Double)
    requires GenFunction(params, body, funcs, zero, one) == Some(f)
    ensures var s := GenParams(params, 0, EmptyFunction(funcs, zero, one));
      var r := Gen(body, s);
      && Contains(f, s) && Contains(f, r.s) && r.v.Some? && Contains(f, Emit(r.s, Ret(r.v.value)))
  {
    var e := EmptyFunction(funcs, zero, one);
    var s := GenParams(params, 0, e);
    var r := Gen(body, s);
    ParamsGrow(params, 0, e);
    hide Grows, GenParams;
    GenGrows(body, s);
    EmitGrows(r.s, Ret(r.v.value));
    var last := Emit(r.s, Ret(r.v.value));
    assert Contains(f, last);
    ContainsEarlier(f, r.s, last);
    ContainsEarlier(f, s, r.s);
  }

  /** The prologue, from the first instruction of the function on. */
  lemma PrologueRuns(params: seq<string>, funcs: map<string, nat>, f: Function, m: Machine, args: seq<Double>, w: World)
    returns (c1: Config)
    requires |params| == |args|
    requires Contains(f, GenParams(params, 0, EmptyFunction(funcs, m.fp.zero, m.fp.one)))
    ensures Reaches(f.blocks, m, Start(f, args, w), c1)
    ensures Ready(f, m, GenParams(params, 0, EmptyFunction(funcs, m.fp.zero, m.fp.one)), c1,
      ParamEnv(params, args, |params|), w)
  {
    hide Reaches, GenParams, Contains;
    var e := EmptyFunction(funcs, m.fp.zero, m.fp.one);
    var c := Start(f, args, w);
    assert Ready(f, m, e, c, map[], w);
    c1 := ParamsRun(f, m, params, 0, e, c, w);
  }

  /** The return takes the value of the body. */
  lemma RetReturns(f: Function, m: Machine, r: Result, c: Config, d: Double)
    requires r.v.Some? && At(r.s, c) && Value(r.v.value, c) == Some(d) && Contains(f, Emit(r.s, Ret(r.v.value)))
    ensures Step(f.blocks, m, c) == Return(Returned(d, c.world))
  {}

  /** A run that returns has nothing after it. */
  lemma ReturnIsLast(f: Function, m: Machine, n: nat, k: nat, c: Config, r: Returned)
    requires ReturnsAfter(f, m, n, c, r) && n < k
    ensures Steps(f.blocks, m, k, c).None?
  {
    if Steps(f.blocks, m, k, c).Some? {
      StepsPrefix(f.blocks, m, k, n + 1, c);
      StepsCompose(f.blocks, m, n, 1, c);
      assert false;
    }
  }

  lemma ReturnsOnce(f: Function, m: Machine, n: nat, k: nat, c: Config, r: Returned, q: Returned)
    requires ReturnsAfter(f, m, n, c, r) && ReturnsAfter(f, m, k, c, q)
    ensures n == k && r == q
  {
    if n < k { ReturnIsLast(f, m, n, k, c, r); }
    if k < n { ReturnIsLast(f, m, k, n, c, q); }
  }

  /** A run that halts does not return. */
  lemma HaltIsNoReturn(f: Function, m: Machine, n: nat, k: nat, c: Config, r: Returned)
    requires ReturnsAfter(f, m, n, c, r)
    requires Steps(f.blocks, m, k, c).Some?
    ensures Step(f.blocks, m, Steps(f.blocks, m, k, c).value) != Halt
  {
    if n < k { ReturnIsLast(f, m, n, k, c, r); }
    if k < n {
      StepsPrefix(f.blocks, m, n, k + 1, c);
      StepsCompose(f.blocks, m, k, 1, c);
    }
  }

  lemma ReturnMeansDone(params: seq<string>, body: Expr, funcs: map<string, nat>, f: Function, m: Machine,
          args: seq<Double>, w: World, n: nat, r: Returned)
    requires |params| == |args| && LeaksUnused(body)
    requires GenFunction(params, body, funcs, m.fp.zero, m.fp.one) == Some(f)
    requires ReturnsAfter(f, m, n, Start(f, args, w), r)
    ensures BodyYields(params, body, m, args, w, n + 1, r)
  {
    hide GenFunction, Steps, Step;
    var c := Start(f, args, w);
    var c2 := FunctionFollows(params, body, funcs, f, m, args, w, n + 1);
    var out := Eval(body, ParamEnv(params, args, |params|), w, m, n + 1);
    match out
    case OutOfFuel => ReturnIsLast(f, m, n, n + 1, c, r);
    case Stuck =>
      var k: nat :| Steps(f.blocks, m, k, c) == Some(c2);
      HangsIsHalt(f, m, c2);
      HaltIsNoReturn(f, m, n, k, c, r);
    case Done(v, _, w2) =>
      var k: nat :| Steps(f.blocks, m, k, c) == Some(c2);
      ReturnsOnce(f, m, n, k, c, r, Returned(v, w2));
  }

  /** A compiled function returns r exactly when its body evaluates to r: whatever the arithmetic, whatever
      the functions it calls do, and whether or not its loops end. */
  lemma FunctionCorrect(params: seq<string>, body: Expr, funcs: map<string, nat>, f: Function, m: Machine,
          args: seq<Double>, w: World, r: Returned)
    requires |params| == |args| && LeaksUnused(body)
    requires GenFunction(params, body, funcs, m.fp.zero, m.fp.one) == Some(f)
    ensures Returns(f, m, args, w, r) <==> Yields(params, body, m, args, w, r)
  {
    hide GenFunction, Steps, Step;
    var c := Start(f, args, w);
    if fuel: nat :| BodyYields(params, body, m, args, w, fuel, r) {
      var c2 := FunctionFollows(params, body, funcs, f, m, args, w, fuel);
      var n: nat :| Steps(f.blocks, m, n, c) == Some(c2);
      assert ReturnsAfter(f, m, n, c, r);
    }
    if n: nat :| ReturnsAfter(f, m, n, c, r) {
      ReturnMeansDone(params, body, funcs, f, m, args, w, n, r);
    }
  }

  datatype Definition = Definition(params: seq<string>, body: Expr)

  /** Functions defined in the language, and what calls of all others do. */
  datatype Program = Program(fp: Arithmetic, defs: map<string, Definition>,
    external: (World, string, seq<Double>) -> Option<Returned>)

  /** Every definition compiles, and compiled holds the results. */
  ghost predicate Compiled(p: Program, funcs: map<string, nat>, compiled: map<string, Function>) {
    forall g :: g in p.defs ==>
      && g in compiled
      && LeaksUnused(p.defs[g].body)
      && GenFunction(p.defs[g].params, p.defs[g].body, funcs, p.fp.zero, p.fp.one) == Some(compiled[g])
  }

  /** What the body evaluates to, if it evaluates to anything. */
  ghost function SourceAnswer(d: Definition, m: Machine, args: seq<Double>, w: World): Option<Returned> {
    if |d.params| != |args| then None
    else if r :| Yields(d.params, d.body, m, args, w, r) then Some(r) else None
  }

  /** What a compiled function of n parameters returns, if it returns. */
  ghost function CompiledAnswer(n: nat, f: Function, m: Machine, args: seq<Double>, w: World): Option<Returned> {
    if n != |args| then None
    else if r :| Returns(f, m, args, w, r) then Some(r) else None
  }

  /** The machine whose calls are calls in the source language, nested at most depth calls deep. */
  ghost function SourceMachine(p: Program, depth: nat): Machine
    decreases depth, 1
  {
    Machine(p.fp, (w, g, args) => SourceCall(p, depth, w, g, args))
  }

  ghost function SourceCall(p: Program, depth: nat, w: World, g: string, args: seq<Double>): Option<Returned>
    decreases depth, 0
  {
    if g !in p.defs then p.external(w, g, args)
    else if depth == 0 then None
    else SourceAnswer(p.defs[g], SourceMachine(p, depth - 1), args, w)
  }

  /** The same for calls of the generated code. */
  ghost function CompiledMachine(p: Program, compiled: map<string, Function>, depth: nat): Machine
    decreases depth, 1
  {
    Machine(p.fp, (w, g, args) => CompiledCall(p, compiled, depth, w, g, args))
  }

  ghost function CompiledCall(p: Program, compiled: map<string, Function>, depth: nat, w: World, g: string,
          args: seq<Double>): Option<Returned>
    decreases depth, 0
  {
    if g !in p.defs then p.external(w, g, args)
    else if depth == 0 || g !in compiled then None
    else CompiledAnswer(|p.defs[g].params|, compiled[g], CompiledMachine(p, compiled, depth - 1), args, w)
  }

  /** The machine sees of the functions it calls only what they return. */
  lemma {:induction false} SameCallees(blocks: map<nat, seq<Instr>>, m: Machine, q: Machine, n: nat, c: Config)
    requires m.fp == q.fp && forall w, g, args :: m.callee(w, g, args) == q.callee(w, g, args)
    ensures Steps(blocks, m, n, c) == Steps(blocks, q, n, c)
    decreases n
  {
    if n > 0 {
      assert Step(blocks, m, c) == Step(blocks, q, c);
      if Step(blocks, m, c).Goto? { SameCallees(blocks, m, q, n - 1, Step(blocks, m, c).c); }
    }
  }

  lemma SameCalleesReturn(f: Function, m: Machine, q: Machine, args: seq<Double>, w: World, r: Returned)
    requires m.fp == q.fp && forall w, g, args :: m.callee(w, g, args) == q.callee(w, g, args)
    requires Returns(f, m, args, w, r)
    ensures Returns(f, q, args, w, r)
  {
    var c := Start(f, args, w);
    var n: nat :| ReturnsAfter(f, m, n, c, r);
    SameCallees(f.blocks, m, q, n, c);
    var c1 := Steps(f.blocks, m, n, c).value;
    assert Step(f.blocks, m, c1) == Step(f.blocks, q, c1);
    assert ReturnsAfter(f, q, n, c, r);
  }

  lemma SameAnswer(d: Definition, funcs: map<string, nat>, f: Function, m: Machine, q: Machine, args: seq<Double>,
          w: World)
    requires LeaksUnused(d.body) && GenFunction(d.params, d.body, funcs, m.fp.zero, m.fp.one) == Some(f)
    requires m.fp == q.fp && forall w, g, args :: m.callee(w, g, args) == q.callee(w, g, args)
    ensures SourceAnswer(d, m, args, w) == CompiledAnswer(|d.params|, f, q, args, w)
  {
    hide Returns, Yields, GenFunction;
    if |d.params| == |args| {
      forall r ensures Yields(d.params, d.body, m, args, w, r) <==> Returns(f, q, args, w, r) {
        FunctionCorrect(d.params, d.body, funcs, f, m, args, w, r);
        if Returns(f, m, args, w, r) { SameCalleesReturn(f, m, q, args, w, r); }
        if Returns(f, q, args, w, r) { SameCalleesReturn(f, q, m, args, w, r); }
      }
      forall r, r2 | Returns(f, q, args, w, r) && Returns(f, q, args, w, r2) ensures r == r2 {
        OneResult(f, q, args, w, r, r2);
      }
    }
  }

  lemma OneResult(f: Function, m: Machine, args: seq<Double>, w: World, r: Returned, r2: Returned)
    requires Returns(f, m, args, w, r) && Returns(f, m, args, w, r2)
    ensures r == r2
  {
    var n: nat :| ReturnsAfter(f, m, n, Start(f, args, w), r);
    var k: nat :| ReturnsAfter(f, m, k, Start(f, args, w), r2);
    ReturnsOnce(f, m, n, k, Start(f, args, w), r, r2);
  }

  /** Functions that call each other, recursively or not, return after compilation what they returned before. */
  lemma {:induction false} ModuleCorrect(p: Program, funcs: map<string, nat>, compiled: map<string, Function>,
          depth: nat, w: World, g: string, args: seq<Double>)
    requires Compiled(p, funcs, compiled)
    ensures SourceCall(p, depth, w, g, args) == CompiledCall(p, compiled, depth, w, g, args)
    decreases depth
  {
    if g in p.defs && depth > 0 {
      var m, q := SourceMachine(p, depth - 1), CompiledMachine(p, compiled, depth - 1);
      forall w1, h, a ensures m.callee(w1, h, a) == q.callee(w1, h, a) {
        ModuleCorrect(p, funcs, compiled, depth - 1, w1, h, a);
      }
      SameAnswer(p.defs[g], funcs, compiled[g], m, q, args, w);
    }
  }
}
