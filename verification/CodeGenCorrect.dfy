/** Compiler correctness for expressions: the generated code does, step for step, what evaluation says. */
module CodeGenCorrect {
  import opened Wrappers
  import opened KaleidoscopeAst
  import opened KaleidoscopeEval
  import opened Ir
  import opened CodeGenSpec
  import opened CodeGenFrame
  import opened CodeGenScope
  import opened CodeGenRun
  import opened CodeGenLeaves

  ghost function AssignedOption(e: Option<Expr>): set<string>
    decreases e
  {
    if e.Some? then Assigned(e.value) else {}
  }

  /** The variables from outside e that e assigns. */
  ghost function Assigned(e: Expr): set<string>
    decreases e
  {
    match e
    case Number(_) => {}
    case Variable(_) => {}
    case Unary(_, a) => Assigned(a)
    case Binary(op, l, r) => if op == '=' && l.Variable? then Assigned(r) + {l.name} else Assigned(l) + Assigned(r)
    case Call(_, _) => AssignedArgs(e, 0)
    case If(c, t, f) => Assigned(c) + (Assigned(t) + Assigned(f))
    case For(x, start, _, _, _) => Assigned(start) + (AssignedInside(e) - {x})
    case VarIn(_, _) => AssignedVars(e, 0)
  }

  ghost function AssignedInside(e: Expr): set<string>
    requires e.For?
    decreases e, 0
  {
    Assigned(e.body) + AssignedOption(e.step) + Assigned(e.end)
  }

  ghost function AssignedArgs(e: Expr, i: nat): set<string>
    requires e.Call? && i <= |e.args|
    decreases e, |e.args| - i
  {
    if i == |e.args| then {} else Assigned(e.args[i]) + AssignedArgs(e, i + 1)
  }

  ghost function AssignedVars(e: Expr, i: nat): set<string>
    requires e.VarIn? && i <= |e.vars|
    decreases e, |e.vars| - i
  {
    if i == |e.vars| then Assigned(e.body)
    else AssignedOption(e.vars[i].init) + (AssignedVars(e, i + 1) - {e.vars[i].name})
  }

  predicate DistinctOption(e: Option<Expr>) {
    e.Some? ==> DistinctBinders(e.value)
  }

  lemma SameScopeAfter(e: Expr, s: GenState)
    requires WellFormed(s) && DistinctBinders(e) && Gen(e, s).v.Some?
    ensures SameScope(s, Gen(e, s).s) && Grows(s, Gen(e, s).s) && WellFormed(Gen(e, s).s)
  {
    GenGrows(e, s);
    NamesAfterGen(e, s);
    DistinctBindersNeverLeak(e);
    SameScopeWellFormed(s, Gen(e, s).s);
  }

  lemma ReadyAfter(f: Function, m: Machine, e: Expr, s: GenState, c: Config, c2: Config, names: set<string>,
          env0: Env, w0: World, d: Double, env: Env, w: World)
    requires Ready(f, m, s, c, env0, w0) && DistinctBinders(e) && Gen(e, s).v.Some?
    requires Arrived(s, c, c2, Gen(e, s), names, d, env, w)
    ensures Ready(f, m, Gen(e, s).s, c2, env, w) && SameScope(s, Gen(e, s).s)
  {
    SameScopeAfter(e, s);
  }

  lemma ReadyAfterOption(f: Function, m: Machine, e: Option<Expr>, default: Double, s: GenState, c: Config,
          c2: Config, names: set<string>, env0: Env, w0: World, d: Double, env: Env, w: World)
    requires Ready(f, m, s, c, env0, w0) && DistinctOption(e) && GenOption(e, default, s).v.Some?
    requires Arrived(s, c, c2, GenOption(e, default, s), names, d, env, w)
    ensures Ready(f, m, GenOption(e, default, s).s, c2, env, w) && SameScope(s, GenOption(e, default, s).s)
  {
    if e.Some? { ReadyAfter(f, m, e.value, s, c, c2, names, env0, w0, d, env, w); }
  }

  /** From any configuration that stands where code generation for e began, the generated code behaves as
      the evaluation of e: it reaches the end with the same value, variables and world, or it halts or
      runs on as evaluation does. Only slots of variables that e assigns, and new ones, change. */
  lemma {:induction false} CodegenCorrect(e: Expr, s: GenState, f: Function, m: Machine, c: Config, env: Env,
          w: World, fuel: nat)
    returns (c2: Config)
    requires Ready(f, m, s, c, env, w) && DistinctBinders(e)
    requires Gen(e, s).v.Some? && Contains(f, Gen(e, s).s)
    ensures Follows(f, m, s, c, c2, Eval(e, env, w, m, fuel), Gen(e, s), Assigned(e), fuel)
    decreases fuel, e
  {
    match e
    case Number(d) =>
      c2 := c;
      ReachesSelf(f, m, c);
    case Variable(x) =>
      c2 := VariableRuns(f, m, x, s, c, env, w);
    case Unary(op, a) =>
      c2 := UnaryCorrect(e, s, f, m, c, env, w, fuel);
    case Binary(op, l, r) =>
      if op == '=' {
        c2 := AssignCorrect(e, s, f, m, c, env, w, fuel);
      } else {
        c2 := BinaryCorrect(e, s, f, m, c, env, w, fuel);
      }
    case Call(g, args) =>
      c2 := CallCorrect(e, s, f, m, c, env, w, fuel);
    case If(_, _, _) =>
      c2 := IfCorrect(e, s, f, m, c, env, w, fuel);
    case For(_, _, _, _, _) =>
      c2 := ForCorrect(e, s, f, m, c, env, w, fuel);
    case VarIn(_, _) =>
      c2 := VarInCorrect(e, s, f, m, c, env, w, fuel);
  }

  lemma {:induction false} OptionCorrect(e: Option<Expr>, default: Double, s: GenState, f: Function, m: Machine,
          c: Config, env: Env, w: World, fuel: nat)
    returns (c2: Config)
    requires Ready(f, m, s, c, env, w) && DistinctOption(e)
    requires GenOption(e, default, s).v.Some? && Contains(f, GenOption(e, default, s).s)
    ensures Follows(f, m, s, c, c2, EvalOption(e, default, env, w, m, fuel), GenOption(e, default, s),
      AssignedOption(e), fuel)
    decreases fuel, e
  {
    if e.Some? {
      c2 := CodegenCorrect(e.value, s, f, m, c, env, w, fuel);
    } else {
      c2 := c;
      ReachesSelf(f, m, c);
    }
  }

  lemma {:induction false} UnaryCorrect(e: Expr, s: GenState, f: Function, m: Machine, c: Config, env: Env, w: World,
          fuel: nat)
    returns (c2: Config)
    requires Ready(f, m, s, c, env, w) && DistinctBinders(e) && e.Unary?
    requires Gen(e, s).v.Some? && Contains(f, Gen(e, s).s)
    ensures Follows(f, m, s, c, c2, Eval(e, env, w, m, fuel), Gen(e, s), Assigned(e), fuel)
    decreases fuel, e, 0
  {
    var g := UnaryName(e.opcode);
    var r := Gen(e.operand, s);
    SameScopeAfter(e.operand, s);
    GenCallGrows(g, [r.v.value], r.s);
    ContainsEarlier(f, r.s, Gen(e, s).s);
    c2 := CodegenCorrect(e.operand, s, f, m, c, env, w, fuel);
    var out := Eval(e.operand, env, w, m, fuel);
    if out.Done? {
      var c1 := c2;
      ReadyAfter(f, m, e.operand, s, c, c1, Assigned(e.operand), env, w, out.value, out.env, out.world);
      OneValue(r.v.value, out.value, c1);
      c2 := CallRuns(f, m, g, [r.v.value], [out.value], r.s, c1, out.env, out.world, fuel);
      FollowsLater(f, m, s, r.s, c, c1, c2, Eval(e, env, w, m, fuel), Gen(e, s), Assigned(e.operand), {}, fuel);
      FollowsMore(f, m, s, c, c2, Eval(e, env, w, m, fuel), Gen(e, s), Assigned(e.operand) + {}, Assigned(e), fuel);
    }
  }

  lemma {:induction false} AssignCorrect(e: Expr, s: GenState, f: Function, m: Machine, c: Config, env: Env, w: World,
          fuel: nat)
    returns (c2: Config)
    requires Ready(f, m, s, c, env, w) && DistinctBinders(e) && e.Binary? && e.op == '='
    requires Gen(e, s).v.Some? && Contains(f, Gen(e, s).s)
    ensures Follows(f, m, s, c, c2, Eval(e, env, w, m, fuel), Gen(e, s), Assigned(e), fuel)
    decreases fuel, e, 0
  {
    var x := e.lhs.name;
    var r := Gen(e.rhs, s);
    SameScopeAfter(e.rhs, s);
    EmitGrows(r.s, Store(r.v.value, Lookup(r.s, x).value));
    ContainsEarlier(f, r.s, Gen(e, s).s);
    c2 := CodegenCorrect(e.rhs, s, f, m, c, env, w, fuel);
    var out := Eval(e.rhs, env, w, m, fuel);
    if out.Done? {
      var c1 := c2;
      ReadyAfter(f, m, e.rhs, s, c, c1, Assigned(e.rhs), env, w, out.value, out.env, out.world);
      c2 := AssignRuns(f, m, x, r.v.value, out.value, r.s, c1, out.env, out.world);
      FollowsLater(f, m, s, r.s, c, c1, c2, Eval(e, env, w, m, fuel), Gen(e, s), Assigned(e.rhs), {x}, fuel);
    }
  }

  lemma {:induction false} BinaryCorrect(e: Expr, s: GenState, f: Function, m: Machine, c: Config, env: Env, w: World,
          fuel: nat)
    returns (c2: Config)
    requires Ready(f, m, s, c, env, w) && DistinctBinders(e) && e.Binary? && e.op != '='
    requires Gen(e, s).v.Some? && Contains(f, Gen(e, s).s)
    ensures Follows(f, m, s, c, c2, Eval(e, env, w, m, fuel), Gen(e, s), Assigned(e), fuel)
    decreases fuel, e, 0
  {
    hide Contains, Grows, Matches, Keeps, Reaches, Allocated, SlotsExist, SlotsDistinct, SameScope, WellNumbered;
    var a := Gen(e.lhs, s);
    var b := Gen(e.rhs, a.s);
    SameScopeAfter(e.lhs, s);
    SameScopeAfter(e.rhs, a.s);
    GenBinaryGrows(e.op, a.v.value, b.v.value, b.s);
    ContainsEarlier(f, b.s, Gen(e, s).s);
    ContainsEarlier(f, a.s, b.s);
    c2 := CodegenCorrect(e.lhs, s, f, m, c, env, w, fuel);
    var x := Eval(e.lhs, env, w, m, fuel);
    if x.Done? {
      var c1 := c2;
      ReadyAfter(f, m, e.lhs, s, c, c1, Assigned(e.lhs), env, w, x.value, x.env, x.world);
      c2 := CodegenCorrect(e.rhs, a.s, f, m, c1, x.env, x.world, fuel);
      var y := Eval(e.rhs, x.env, x.world, m, fuel);
      if y.Done? {
        var c3 := c2;
        ReadyAfter(f, m, e.rhs, a.s, c1, c3, Assigned(e.rhs), x.env, x.world, y.value, y.env, y.world);
        LastingValue(a.s, c1, c3, Assigned(e.rhs), a.v.value);
        c2 := BinaryRuns(f, m, e.op, a.v.value, b.v.value, x.value, y.value, b.s, c3, y.env, y.world, fuel);
        FollowsLater(f, m, a.s, b.s, c1, c3, c2, Eval(e, env, w, m, fuel), Gen(e, s), Assigned(e.rhs), {}, fuel);
        var all := Eval(e, env, w, m, fuel);
        FollowsMore(f, m, a.s, c1, c2, all, Gen(e, s), Assigned(e.rhs) + {}, Assigned(e.rhs), fuel);
        FollowsLater(f, m, s, a.s, c, c1, c2, all, Gen(e, s), Assigned(e.lhs), Assigned(e.rhs), fuel);
      } else {
        FailsLater<Double, Double>(f, m, c, c1, c2, y, fuel);
      }
    }
  }

  /** Arguments have been computed and are all still there. */
  ghost predicate ArgsFollow(f: Function, m: Machine, s: GenState, c: Config, c2: Config, out: Outcome<seq<Double>>,
          r: ArgsResult, names: set<string>, fuel: nat)
  {
    if out.Done? then
      && Reaches(f.blocks, m, c, c2)
      && At(r.s, c2)
      && r.vs.Some?
      && Values(r.vs.value, c2) == Some(out.value)
      && Matches(out.env, r.s, c2)
      && c2.world == out.world
      && Keeps(s, c, c2, names)
    else
      Fails(f, m, c, c2, out, fuel)
  }

  lemma {:induction false} ArgsCorrect(e: Expr, i: nat, s: GenState, f: Function, m: Machine, c: Config, env: Env,
          w: World, fuel: nat)
    returns (c2: Config)
    requires Ready(f, m, s, c, env, w) && DistinctBinders(e) && e.Call? && i <= |e.args|
    requires GenArgs(e, i, s).vs.Some? && Contains(f, GenArgs(e, i, s).s)
    ensures ArgsFollow(f, m, s, c, c2, EvalArgs(e, i, env, w, m, fuel), GenArgs(e, i, s), AssignedArgs(e, i), fuel)
    ensures WellFormed(GenArgs(e, i, s).s) && SameScope(s, GenArgs(e, i, s).s)
    decreases fuel, e, |e.args| - i
  {
    hide Contains, Keeps, Reaches, Matches, SlotsExist, SlotsDistinct, Grows, Value, Values, ArgsFollow;
    ArgsSameScope(e, i, s);
    if i == |e.args| {
      c2 := c;
      NoArgsFollow(e, s, f, m, c, env, w, fuel);
      return;
    }
    var a := e.args[i];
    var r := Gen(a, s);
    SameScopeAfter(a, s);
    GenArgsGrows(e, i + 1, r.s);
    ContainsEarlier(f, r.s, GenArgs(e, i, s).s);
    c2 := CodegenCorrect(a, s, f, m, c, env, w, fuel);
    var x := Eval(a, env, w, m, fuel);
    if x.Done? {
      var c1 := c2;
      ReadyAfter(f, m, a, s, c, c1, Assigned(a), env, w, x.value, x.env, x.world);
      c2 := ArgsCorrect(e, i + 1, r.s, f, m, c1, x.env, x.world, fuel);
      var rest := EvalArgs(e, i + 1, x.env, x.world, m, fuel);
      ArgsFollowLater(e, i, s, r, f, m, c, c1, c2, x, rest, fuel);
    } else {
      ReachesSelf(f, m, c);
      FailsLater<Double, seq<Double>>(f, m, c, c, c2, x, fuel);
      ArgsFail(f, m, s, c, c2, x.Fail(), GenArgs(e, i, s), AssignedArgs(e, i), fuel);
    }
  }

  lemma ArgsFail(f: Function, m: Machine, s: GenState, c: Config, c2: Config, out: Outcome<seq<Double>>,
          r: ArgsResult, names: set<string>, fuel: nat)
    requires Fails(f, m, c, c2, out, fuel)
    ensures ArgsFollow(f, m, s, c, c2, out, r, names, fuel)
  {}

  lemma NoArgsFollow(e: Expr, s: GenState, f: Function, m: Machine, c: Config, env: Env, w: World, fuel: nat)
    requires Ready(f, m, s, c, env, w) && e.Call?
    ensures var n := |e.args|;
      ArgsFollow(f, m, s, c, c, EvalArgs(e, n, env, w, m, fuel), GenArgs(e, n, s), AssignedArgs(e, n), fuel)
  {
    ReachesSelf(f, m, c);
  }

  /** One argument and then the others. */
  lemma ArgsFollowLater(e: Expr, i: nat, s: GenState, r: Result, f: Function, m: Machine, c: Config, c1: Config,
          c2: Config, x: Outcome<Double>, rest: Outcome<seq<Double>>, fuel: nat)
    requires e.Call? && i < |e.args| && r == Gen(e.args[i], s) && SameScope(s, r.s) && GenArgs(e, i, s).vs.Some?
    requires x.Done? && Follows(f, m, s, c, c1, x, r, Assigned(e.args[i]), fuel)
    requires ArgsFollow(f, m, r.s, c1, c2, rest, GenArgs(e, i + 1, r.s), AssignedArgs(e, i + 1), fuel)
    ensures var out := if rest.Done? then rest.(value := [x.value] + rest.value) else rest;
      ArgsFollow(f, m, s, c, c2, out, GenArgs(e, i, s), AssignedArgs(e, i), fuel)
  {
    hide Reaches, Keeps, Matches, SameScope, Value;
    if rest.Done? {
      ReachesTransitive(f, m, c, c1, c2);
      KeepsTransitive(s, r.s, c, c1, c2, Assigned(e.args[i]), AssignedArgs(e, i + 1));
      LastingValue(r.s, c1, c2, AssignedArgs(e, i + 1), r.v.value);
      var vs := GenArgs(e, i, s).vs.value;
      assert vs[1..] == GenArgs(e, i + 1, r.s).vs.value;
    } else {
      FailsLater<seq<Double>, seq<Double>>(f, m, c, c1, c2, rest, fuel);
    }
  }

  lemma {:induction false} ArgsSameScope(e: Expr, i: nat, s: GenState)
    requires WellFormed(s) && DistinctBinders(e) && e.Call? && i <= |e.args| && GenArgs(e, i, s).vs.Some?
    ensures WellFormed(GenArgs(e, i, s).s) && SameScope(s, GenArgs(e, i, s).s)
    decreases |e.args| - i
  {
    if i < |e.args| {
      var r := Gen(e.args[i], s);
      SameScopeAfter(e.args[i], s);
      ArgsSameScope(e, i + 1, r.s);
      SameScopeTransitive(s, r.s, GenArgs(e, i + 1, r.s).s);
    }
  }

  lemma {:induction false} CallCorrect(e: Expr, s: GenState, f: Function, m: Machine, c: Config, env: Env, w: World,
          fuel: nat)
    returns (c2: Config)
    requires Ready(f, m, s, c, env, w) && DistinctBinders(e) && e.Call?
    requires Gen(e, s).v.Some? && Contains(f, Gen(e, s).s)
    ensures Follows(f, m, s, c, c2, Eval(e, env, w, m, fuel), Gen(e, s), Assigned(e), fuel)
    decreases fuel, e, |e.args| + 1
  {
    var r := GenArgs(e, 0, s);
    GenArgsGrows(e, 0, s);
    GenCallGrows(e.callee, r.vs.value, r.s);
    ContainsEarlier(f, r.s, Gen(e, s).s);
    c2 := ArgsCorrect(e, 0, s, f, m, c, env, w, fuel);
    var out := EvalArgs(e, 0, env, w, m, fuel);
    if out.Done? {
      var c1 := c2;
      assert Ready(f, m, r.s, c1, out.env, out.world);
      c2 := CallRuns(f, m, e.callee, r.vs.value, out.value, r.s, c1, out.env, out.world, fuel);
      FollowsLater(f, m, s, r.s, c, c1, c2, Eval(e, env, w, m, fuel), Gen(e, s), AssignedArgs(e, 0), {}, fuel);
      FollowsMore(f, m, s, c, c2, Eval(e, env, w, m, fuel), Gen(e, s), AssignedArgs(e, 0) + {}, Assigned(e), fuel);
    } else {
      ReachesSelf(f, m, c);
      FailsLater<seq<Double>, Double>(f, m, c, c, c2, out, fuel);
    }
  }

  lemma {:induction false} IfCorrect(e: Expr, s: GenState, f: Function, m: Machine, c: Config, env: Env, w: World,
          fuel: nat)
    returns (c2: Config)
    requires Ready(f, m, s, c, env, w) && DistinctBinders(e) && e.If?
    requires Gen(e, s).v.Some? && Contains(f, Gen(e, s).s)
    ensures Follows(f, m, s, c, c2, Eval(e, env, w, m, fuel), Gen(e, s), Assigned(e), fuel)
    decreases fuel, e, 2
  {
    hide Grows, Contains, WellNumbered, SlotsExist, SlotsDistinct, Matches, Keeps, Reaches, Allocated, SameScope,
      IfHead, IfElse, IfMerge;
    var rc, h, rt, els, rf := IfParts(e, s);
    IfContains(f, e, s, rc, h, rt, els, rf);
    c2 := CodegenCorrect(e.cond, s, f, m, c, env, w, fuel);
    var out := Eval(e.cond, env, w, m, fuel);
    if out.Done? {
      var c1 := c2;
      ReadyAfter(f, m, e.cond, s, c, c1, Assigned(e.cond), env, w, out.value, out.env, out.world);
      c2 := ArmsCorrect(e, s, rc, h, rt, els, rf, f, m, c1, out.env, out.world, out.value, fuel);
      FollowsLater(f, m, s, rc.s, c, c1, c2, Eval(e, env, w, m, fuel), Gen(e, s), Assigned(e.cond),
        Assigned(e.thn) + Assigned(e.els), fuel);
    }
  }

  /** The states of a conditional, as IfParts gives them. */
  ghost predicate AreIfParts(e: Expr, s: GenState, rc: Result, h: GenState, rt: Result, els: GenState, rf: Result)
    requires e.If?
  {
    && rc == Gen(e.cond, s) && rc.v.Some? && h == IfHead(rc.s, rc.v.value)
    && rt == Gen(e.thn, h) && rt.v.Some? && els == IfElse(rt.s, rc.s.nextBlock)
    && rf == Gen(e.els, els) && rf.v.Some?
    && Gen(e, s) == IfMerge(rf.s, rc.s.nextBlock, rt.v.value, rt.s.cur, rf.v.value)
  }

  lemma IfContains(f: Function, e: Expr, s: GenState, rc: Result, h: GenState, rt: Result, els: GenState, rf: Result)
    requires WellNumbered(s) && e.If? && Gen(e, s).v.Some? && Contains(f, Gen(e, s).s)
    requires AreIfParts(e, s, rc, h, rt, els, rf)
    requires Grows(rc.s, h) && Grows(h, rt.s) && Grows(els, rf.s) && Grows(rc.s, rt.s)
    requires rc.s.nextBlock + 1 !in rt.s.blocks && rc.s.nextBlock + 2 !in rf.s.blocks
    requires rc.s.nextBlock + 2 < rf.s.nextBlock
    ensures Contains(f, rf.s) && Contains(f, Emit(rf.s, Br(rc.s.nextBlock + 2)))
    ensures Contains(f, els) && Contains(f, rt.s) && Contains(f, Emit(rt.s, Br(rc.s.nextBlock + 2)))
    ensures Contains(f, h) && Contains(f, rc.s)
  {
    hide Contains, IfElse, IfMerge, Emit, Gen, Grows, WellNumbered, IfHead;
    GrownWellNumbered(h, rt.s);
    GrownWellNumbered(els, rf.s);
    ContainsMerge(f, rf.s, rc.s.nextBlock, rt.v.value, rt.s.cur, rf.v.value);
    ContainsEarlier(f, els, rf.s);
    ContainsElse(f, rt.s, rc.s.nextBlock);
    ContainsEarlier(f, h, rt.s);
    ContainsEarlier(f, rc.s, h);
  }

  /** The branch and the arm it leads to, up to the merge block. */
  lemma {:induction false} ArmsCorrect(e: Expr, s: GenState, rc: Result, h: GenState, rt: Result, els: GenState,
          rf: Result, f: Function, m: Machine, c: Config, env: Env, w: World, d: Double, fuel: nat)
    returns (c2: Config)
    requires WellFormed(s) && DistinctBinders(e) && e.If? && Gen(e, s).v.Some? && Contains(f, Gen(e, s).s)
    requires AreIfParts(e, s, rc, h, rt, els, rf)
    requires Ready(f, m, rc.s, c, env, w) && Value(rc.v.value, c) == Some(d)
    ensures Follows(f, m, rc.s, c, c2,
      if m.fp.fcmpONE(d, m.fp.zero) then Eval(e.thn, env, w, m, fuel) else Eval(e.els, env, w, m, fuel),
      Gen(e, s), Assigned(e.thn) + Assigned(e.els), fuel)
    decreases fuel, e, 1
  {
    hide Grows, Contains, Matches, Keeps, Reaches, Allocated, IfElse, IfMerge, Emit, SlotsExist, SlotsDistinct,
      SameScope, Advances, Follows, Gen;
    var _, _, _, _, _ := IfParts(e, s);
    IfContains(f, e, s, rc, h, rt, els, rf);
    var n := rc.s.nextBlock;
    HeadBranch(f, rc.s, rc.v.value);
    var b := BranchRuns(f, m, rc.v.value, d, n, n + 1, rc.s, c, env, w);
    IfScopes(e, s, rc, h, rt, els, rf);
    if m.fp.fcmpONE(d, m.fp.zero) {
      AtArm(f, m, rc.s, h, c, b, env, w);
      c2 := ThenCorrect(e, s, rc, h, rt, els, rf, f, m, b, env, w, fuel);
      FollowsLater(f, m, rc.s, h, c, b, c2, Eval(e.thn, env, w, m, fuel), Gen(e, s), {}, Assigned(e.thn), fuel);
      FollowsMore(f, m, rc.s, c, c2, Eval(e.thn, env, w, m, fuel), Gen(e, s), {} + Assigned(e.thn),
        Assigned(e.thn) + Assigned(e.els), fuel);
    } else {
      AtArm(f, m, rc.s, els, c, b, env, w);
      c2 := ElseCorrect(e, s, rc, h, rt, els, rf, f, m, b, env, w, fuel);
      FollowsLater(f, m, rc.s, els, c, b, c2, Eval(e.els, env, w, m, fuel), Gen(e, s), {}, Assigned(e.els), fuel);
      FollowsMore(f, m, rc.s, c, c2, Eval(e.els, env, w, m, fuel), Gen(e, s), {} + Assigned(e.els),
        Assigned(e.thn) + Assigned(e.els), fuel);
    }
  }

  lemma HeadBranch(f: Function, s: GenState, v: Operand)
    requires WellNumbered(s) && Contains(f, IfHead(s, v))
    ensures Contains(f, Emit(Define(s, FCmpONE(s.nextTemp, v, Const(s.zero))).s,
      CondBr(Temp(s.nextTemp), s.nextBlock, s.nextBlock + 1)))
  {
    var t := Emit(Define(s, FCmpONE(s.nextTemp, v, Const(s.zero))).s,
      CondBr(Temp(s.nextTemp), s.nextBlock, s.nextBlock + 1));
    ContainsStart(f, t.(nextBlock := s.nextBlock + 3), s.nextBlock);
  }

  /** At the start of an empty block the environment is as it was before the branch. */
  lemma AtArm(f: Function, m: Machine, s: GenState, t: GenState, c: Config, b: Config, env: Env, w: World)
    requires Ready(f, m, s, c, env, w) && SameScope(s, t) && WellNumbered(t) && t.zero == s.zero && t.one == s.one
    requires t.cur in t.blocks && t.blocks[t.cur] == [] && b.block == t.cur && b.pc == 0 && b.mem == c.mem
    requires b.world == w
    ensures Ready(f, m, t, b, env, w)
  {
  }

  lemma IfScopes(e: Expr, s: GenState, rc: Result, h: GenState, rt: Result, els: GenState, rf: Result)
    requires WellFormed(s) && DistinctBinders(e) && e.If? && Gen(e, s).v.Some? && AreIfParts(e, s, rc, h, rt, els, rf)
    ensures SameScope(rc.s, h) && SameScope(h, rt.s) && SameScope(rc.s, els) && SameScope(rt.s, els)
    ensures SameScope(els, rf.s)
    ensures SameScope(rf.s, Gen(e, s).s) && SameScope(h, Gen(e, s).s)
    ensures WellFormed(h) && WellFormed(els) && h.zero == els.zero == rc.s.zero && h.one == els.one == rc.s.one
    ensures h.cur == rc.s.nextBlock && h.blocks[h.cur] == [] && els.cur == rc.s.nextBlock + 1
    ensures els.blocks[els.cur] == []
    ensures rt.s.cur != rf.s.cur && WellNumbered(rf.s)
  {
    var _, _, _, _, _ := IfParts(e, s);
    HeadScope(rc.s, rc.v.value);
    ElseScope(rt.s, rc.s.nextBlock);
    MergeScope(rf.s, rc.s.nextBlock, rt.v.value, rt.s.cur, rf.v.value);
    hide IfHead, IfElse, IfMerge, Grows, SameScope, SlotsExist, SlotsDistinct, WellNumbered;
    SameScopeAfter(e.cond, s);
    SameScopeWellFormed(rc.s, h);
    SameScopeAfter(e.thn, h);
    SameScopeTransitive(rc.s, h, rt.s);
    SameScopeTransitive(rc.s, rt.s, els);
    SameScopeWellFormed(rt.s, els);
    SameScopeAfter(e.els, els);
    SameScopeTransitive(h, rt.s, els);
    SameScopeTransitive(h, els, rf.s);
    SameScopeTransitive(h, rf.s, Gen(e, s).s);
  }

  lemma HeadScope(s: GenState, v: Operand)
    ensures var h := IfHead(s, v);
      && SameScope(s, h) && h.zero == s.zero && h.one == s.one
      && h.cur == s.nextBlock && h.cur in h.blocks && h.blocks[h.cur] == []
  {
    forall x ensures Lookup(IfHead(s, v), x) == Lookup(s, x) {}
  }

  lemma ElseScope(s: GenState, n: nat)
    ensures var els := IfElse(s, n);
      && SameScope(s, els) && els.zero == s.zero && els.one == s.one
      && els.cur == n + 1 && els.cur in els.blocks && els.blocks[els.cur] == []
  {
    forall x ensures Lookup(IfElse(s, n), x) == Lookup(s, x) {}
  }

  lemma MergeScope(s: GenState, n: nat, v: Operand, from: nat, u: Operand)
    ensures SameScope(s, IfMerge(s, n, v, from, u).s)
  {
    forall x ensures Lookup(IfMerge(s, n, v, from, u).s, x) == Lookup(s, x) {}
  }

  lemma {:induction false} ThenCorrect(e: Expr, s: GenState, rc: Result, h: GenState, rt: Result, els: GenState,
          rf: Result, f: Function, m: Machine, c: Config, env: Env, w: World, fuel: nat)
    returns (c2: Config)
    requires WellFormed(s) && DistinctBinders(e) && e.If? && Gen(e, s).v.Some? && Contains(f, Gen(e, s).s)
    requires AreIfParts(e, s, rc, h, rt, els, rf) && Ready(f, m, h, c, env, w)
    ensures Follows(f, m, h, c, c2, Eval(e.thn, env, w, m, fuel), Gen(e, s), Assigned(e.thn), fuel)
    decreases fuel, e, 0
  {
    hide Grows, Contains, Reaches, Allocated, IfHead, IfElse, IfMerge, Emit;
    var _, _, _, _, _ := IfParts(e, s);
    IfContains(f, e, s, rc, h, rt, els, rf);
    IfScopes(e, s, rc, h, rt, els, rf);
    var out := Eval(e.thn, env, w, m, fuel);
    c2 := CodegenCorrect(e.thn, h, f, m, c, env, w, fuel);
    if out.Done? {
      c2 := ToMerge(f, m, e, s, rc, rt, rf, h, c, c2, rt, Assigned(e.thn), out.value, out.env, out.world);
    }
  }

  lemma {:induction false} ElseCorrect(e: Expr, s: GenState, rc: Result, h: GenState, rt: Result, els: GenState,
          rf: Result, f: Function, m: Machine, c: Config, env: Env, w: World, fuel: nat)
    returns (c2: Config)
    requires WellFormed(s) && DistinctBinders(e) && e.If? && Gen(e, s).v.Some? && Contains(f, Gen(e, s).s)
    requires AreIfParts(e, s, rc, h, rt, els, rf) && Ready(f, m, els, c, env, w)
    ensures Follows(f, m, els, c, c2, Eval(e.els, env, w, m, fuel), Gen(e, s), Assigned(e.els), fuel)
    decreases fuel, e, 0
  {
    hide Grows, Contains, Reaches, Allocated, IfHead, IfElse, IfMerge, Emit;
    var _, _, _, _, _ := IfParts(e, s);
    IfContains(f, e, s, rc, h, rt, els, rf);
    IfScopes(e, s, rc, h, rt, els, rf);
    var out := Eval(e.els, env, w, m, fuel);
    c2 := CodegenCorrect(e.els, els, f, m, c, env, w, fuel);
    if out.Done? {
      c2 := ToMerge(f, m, e, s, rc, rt, rf, els, c, c2, rf, Assigned(e.els), out.value, out.env, out.world);
    }
  }

  /** From the end of either arm, whose code began at the state t, to the end of the conditional. */
  lemma ToMerge(f: Function, m: Machine, e: Expr, s: GenState, rc: Result, rt: Result, rf: Result, t: GenState,
          c: Config, c1: Config, arm: Result, names: set<string>, d: Double, env: Env, w: World)
    returns (c2: Config)
    requires e.If? && rt.v.Some? && rf.v.Some? && (arm == rt || arm == rf) && rt.s.cur != rf.s.cur
    requires Gen(e, s) == IfMerge(rf.s, rc.s.nextBlock, rt.v.value, rt.s.cur, rf.v.value) && Contains(f, Gen(e, s).s)
    requires WellNumbered(rf.s) && rc.s.nextBlock + 2 < rf.s.nextBlock && rc.s.nextBlock + 2 !in rf.s.blocks
    requires Contains(f, Emit(arm.s, Br(rc.s.nextBlock + 2)))
    requires SameScope(arm.s, rf.s) && SameScope(rf.s, Gen(e, s).s) && t.nextTemp <= arm.s.nextTemp
    requires Reaches(f.blocks, m, c, c1) && Arrived(t, c, c1, arm, names, d, env, w)
    ensures Reaches(f.blocks, m, c, c2) && Arrived(t, c, c2, Gen(e, s), names, d, env, w)
  {
    hide Reaches, Contains, IfMerge, WellNumbered, Keeps, Gen, Emit;
    var n := rc.s.nextBlock;
    assert At(arm.s, c1) && Lasting(arm.v.value, arm.s) && Value(arm.v.value, c1) == Some(d);
    var j := JumpRuns(f, m, n + 2, arm.s, c1);
    c2 := MergeRuns(f, m, rf.s, n, rt.v.value, rt.s.cur, rf.v.value, d, j);
    ReachesTransitive(f, m, c, c1, j);
    ReachesTransitive(f, m, c, j, c2);
    KeepsThroughMerge(t, names, c, c1, j, c2, rf.s.nextTemp, DoubleReg(d));
    SameScopeTransitive(arm.s, rf.s, Gen(e, s).s);
    SameScopeMatches(env, arm.s, Gen(e, s).s, c1, c2);
  }

  lemma SameScopeMatches(env: Env, s: GenState, t: GenState, c: Config, c2: Config)
    requires Matches(env, s, c) && SameScope(s, t) && c2.mem == c.mem
    ensures Matches(env, t, c2)
  {
    forall y ensures Lookup(t, y) == Lookup(s, y) {}
  }

  lemma KeepsThroughMerge(s: GenState, names: set<string>, c: Config, c1: Config, j: Config, c2: Config, t: nat, r: Reg)
    requires Keeps(s, c, c1, names) && s.nextTemp <= t
    requires j.regs == c1.regs && j.mem == c1.mem && j.args == c1.args
    requires c2.regs == j.regs[t := r] && c2.mem == j.mem && c2.args == j.args
    ensures Keeps(s, c, c2, names)
  {}

  lemma {:induction false} ForCorrect(e: Expr, s: GenState, f: Function, m: Machine, c: Config, env: Env, w: World,
          fuel: nat)
    returns (c2: Config)
    requires Ready(f, m, s, c, env, w) && DistinctBinders(e) && e.For?
    requires Gen(e, s).v.Some? && Contains(f, Gen(e, s).s)
    ensures Follows(f, m, s, c, c2, Eval(e, env, w, m, fuel), Gen(e, s), Assigned(e), fuel)
    decreases fuel, e, 2
  {
    hide Grows, Contains, Keeps, Reaches, ForHead, ForTail, Unbind, Matches, SlotsExist, SlotsDistinct, SameScope,
      Allocated, WellNumbered, EvalLoop, AssignedInside, Gen, GenOption;
    var x, slot := e.varName, |s.allocas|;
    var a, rs, h, b, rb, rp, re := ForParts(e, s);
    GrownWellNumbered(rp.s, re.s);
    ForContains(f, e, s, rs, h, b, rb, rp, re);
    SlotReady(f, m, s, x, c, env, w);
    SameScopeAfter(e.start, a);
    c2 := CodegenCorrect(e.start, a, f, m, c, env, w, fuel);
    var out := Eval(e.start, env, w, m, fuel);
    if !out.Done? { return; }
    var c1 := c2;
    ReadyAfter(f, m, e.start, a, c, c1, Assigned(e.start), env, w, out.value, out.env, out.world);
    KeepsSinceAlloca(s, x, c, c1, Assigned(e.start));
    SameScopeTransitive(s, a, rs.s);
    SlotFresh(s, rs.s);
    var c3 := HeadRuns(f, m, x, slot, rs.v.value, out.value, rs.s, c1, out.env, out.world);
    ReachesTransitive(f, m, c, c1, c3);
    KeepsFresh(s, rs.s, c, c1, c3, Assigned(e.start), slot, out.value);
    var inner := out.env[x := out.value];
    c2 := LoopCorrect(e, slot, b, rb, rp, re, f, m, c3, inner, out.world, fuel);
    var loop := EvalLoop(e, inner, out.world, m, fuel);
    if loop.Done? {
      ReachesTransitive(f, m, c, c3, c2);
      InsideSameScope(e, b);
      LoopScopeEnds(e, s, rs, h, b, re, rp, c, c1, c3, c2, out.env, loop.env, out.value);
    } else {
      FailsLater<Double, Double>(f, m, c, c3, c2, loop, fuel);
    }
  }

  lemma ForContains(f: Function, e: Expr, s: GenState, rs: Result, h: GenState, b: GenState, rb: Result, rp: Result,
          re: Result)
    requires e.For? && Gen(e, s).v.Some? && Contains(f, Gen(e, s).s) && rs.v.Some? && rp.v.Some? && re.v.Some?
    requires h == ForHead(rs.s, |s.allocas|, rs.v.value) && b == Bind(h, e.varName, |s.allocas|)
    requires Gen(e, s).s == Unbind(ForTail(re.s, |s.allocas|, rp.v.value, re.v.value, h.cur), e.varName,
      Lookup(h, e.varName))
    requires WellNumbered(re.s) && Grows(rs.s, h) && Grows(b, rb.s) && Grows(rb.s, rp.s) && Grows(rp.s, re.s)
    ensures Contains(f, ForTail(re.s, |s.allocas|, rp.v.value, re.v.value, h.cur)) && Contains(f, re.s)
    ensures Contains(f, rp.s) && Contains(f, rb.s) && Contains(f, b) && Contains(f, h) && Contains(f, rs.s)
  {
    hide Grows, ForHead, ForTail, IsPrefix;
    var t := ForTail(re.s, |s.allocas|, rp.v.value, re.v.value, h.cur);
    assert Contains(f, t);
    ForTailGrows(re.s, |s.allocas|, rp.v.value, re.v.value, h.cur);
    ContainsEarlier(f, re.s, t);
    ContainsEarlier(f, rp.s, re.s);
    ContainsEarlier(f, rb.s, rp.s);
    ContainsEarlier(f, b, rb.s);
    ContainsEarlier(f, rs.s, h);
  }

  /** A new slot changes nothing for the names already bound. */
  lemma SlotReady(f: Function, m: Machine, s: GenState, x: string, c: Config, env: Env, w: World)
    requires Ready(f, m, s, c, env, w)
    ensures Ready(f, m, NewAlloca(s, x), c, env, w) && SameScope(s, NewAlloca(s, x))
  {
    forall y ensures Lookup(NewAlloca(s, x), y) == Lookup(s, y) {}
  }

  lemma KeepsSinceAlloca(s: GenState, x: string, c: Config, c1: Config, names: set<string>)
    requires Keeps(NewAlloca(s, x), c, c1, names)
    ensures Keeps(s, c, c1, names)
  {
    forall k | k in c.mem && k < |s.allocas| && !Owned(s, k, names) ensures c1.mem[k] == c.mem[k] {
      forall y | y in names ensures Lookup(NewAlloca(s, x), y) != Some(k) { assert Lookup(s, y) != Some(k); }
      assert !Owned(NewAlloca(s, x), k, names);
    }
  }

  lemma SlotFresh(s: GenState, t: GenState)
    requires SlotsExist(s) && SameScope(s, t)
    ensures forall y :: Lookup(t, y) != Some(|s.allocas|)
  {
    forall y ensures Lookup(t, y) != Some(|s.allocas|) { assert Lookup(t, y) == Lookup(s, y); }
  }

  lemma HeadShape(f: Function, s: GenState, slot: nat, v: Operand)
    requires WellNumbered(s) && Contains(f, ForHead(s, slot, v))
    ensures var h := ForHead(s, slot, v);
      && WellNumbered(h) && h.named == s.named && h.allocas == s.allocas && h.nextTemp == s.nextTemp && h.zero == s.zero
      && h.one == s.one
      && h.cur == s.nextBlock && h.cur in h.blocks && h.blocks[h.cur] == []
    ensures Contains(f, Emit(s, Store(v, slot))) && Contains(f, Emit(Emit(s, Store(v, slot)), Br(s.nextBlock)))
  {
    hide IsPrefix;
    var t := Emit(s, Store(v, slot));
    EmitGrows(s, Store(v, slot));
    EmitGrows(t, Br(s.nextBlock));
    ContainsStart(f, Emit(t, Br(s.nextBlock)).(nextBlock := s.nextBlock + 1), s.nextBlock);
    ContainsEarlier(f, t, Emit(t, Br(s.nextBlock)));
  }

  /** Storing the start value and entering the loop block brings the loop variable into scope. */
  lemma HeadRuns(f: Function, m: Machine, x: string, slot: nat, v: Operand, d: Double, s: GenState, c: Config,
          env: Env, w: World)
    returns (c2: Config)
    requires Ready(f, m, s, c, env, w) && Value(v, c) == Some(d) && slot < |s.allocas|
    requires forall y :: Lookup(s, y) != Some(slot)
    requires Contains(f, ForHead(s, slot, v))
    ensures slot in c.mem && Reaches(f.blocks, m, c, c2) && c2.mem == c.mem[slot := Some(d)] && c2.regs == c.regs
    ensures c2.args == c.args
    ensures var b := Bind(ForHead(s, slot, v), x, slot);
      Ready(f, m, b, c2, env[x := d], w) && b.blocks[b.cur] == []
  {
    var h := ForHead(s, slot, v);
    HeadShape(f, s, slot, v);
    hide ForHead, Emit, Reaches, Keeps;
    assert slot in c.mem by { assert slot < |f.allocas|; }
    hide Contains;
    var t := Emit(s, Store(v, slot));
    var c1 := StoreRuns(f, m, slot, v, d, s, c);
    c2 := JumpRuns(f, m, s.nextBlock, t, c1);
    ReachesTransitive(f, m, c, c1, c2);
    var b := Bind(h, x, slot);
    forall y ensures Lookup(b, y) == if y == x then Some(slot) else Lookup(s, y) {}
    hide Bind, Lookup, Matches, Allocated;
    BoundReady(f, m, s, b, x, slot, d, c, c2, env, w);
  }

  /** A value in a slot that no name had yet, and a name bound to it. */
  lemma BoundReady(f: Function, m: Machine, s: GenState, t: GenState, x: string, slot: nat, d: Double, c: Config,
          c2: Config, env: Env, w: World)
    requires Ready(f, m, s, c, env, w) && forall y :: Lookup(s, y) != Some(slot)
    requires WellNumbered(t) && t.zero == s.zero && t.one == s.one && |s.allocas| <= |t.allocas| && slot < |t.allocas|
    requires forall y :: Lookup(t, y) == if y == x then Some(slot) else Lookup(s, y)
    requires At(t, c2) && c2.mem == c.mem[slot := Some(d)] && c2.world == w
    ensures Ready(f, m, t, c2, env[x := d], w)
  {
    hide WellNumbered;
  }

  lemma KeepsFresh(s: GenState, t: GenState, c: Config, c1: Config, c2: Config, names: set<string>, slot: nat,
          d: Double)
    requires Keeps(s, c, c1, names) && |s.allocas| <= slot && c2.regs == c1.regs && c2.args == c1.args
    requires slot in c1.mem && c2.mem == c1.mem[slot := Some(d)]
    ensures Keeps(s, c, c2, names)
  {}

  /** The rounds of a loop, from the start of the loop block to the block after the loop. */
  lemma {:induction false} LoopCorrect(e: Expr, slot: nat, b: GenState, rb: Result, rp: Result, re: Result,
          f: Function, m: Machine, c: Config, env: Env, w: World, fuel: nat)
    returns (c2: Config)
    requires e.For? && DistinctBinders(e) && Ready(f, m, b, c, env, w) && b.blocks[b.cur] == []
    requires Lookup(b, e.varName) == Some(slot)
    requires rb == Gen(e.body, b) && rb.v.Some? && rp == GenOption(e.step, b.one, rb.s) && rp.v.Some?
    requires re == Gen(e.end, rp.s) && re.v.Some?
    requires Contains(f, rb.s) && Contains(f, rp.s) && Contains(f, re.s)
    requires Contains(f, ForTail(re.s, slot, rp.v.value, re.v.value, b.cur))
    ensures LoopFollows(e, f, m, b, ForTail(re.s, slot, rp.v.value, re.v.value, b.cur), c, c2,
      EvalLoop(e, env, w, m, fuel), fuel)
    decreases fuel, e, 1
  {
    hide Grows, Contains, Reaches, ForTail, WellNumbered, SlotsExist, SlotsDistinct, Matches, Keeps, SameScope,
      Advances, Eval, EvalOption, AssignedInside, Gen, GenOption;
    if fuel == 0 {
      c2 := c;
      return;
    }
    var out := EvalRound(e, env, w, m, fuel);
    c2 := RoundCorrect(e, slot, b, rb, rp, re, f, m, c, env, w, fuel);
    if !out.Done? { return; }
    var next := out.env;
    if !out.value {
      AdvancesReaches(f, m, c, c2);
    } else {
      var c1 := c2;
      c2 := LoopCorrect(e, slot, b, rb, rp, re, f, m, c1, next, out.world, fuel - 1);
      var rest := EvalLoop(e, next, out.world, m, fuel - 1);
      if rest.Done? {
        AdvancesReaches(f, m, c, c1);
        ReachesTransitive(f, m, c, c1, c2);
        var names := AssignedInside(e) + {e.varName};
        KeepsTransitive(b, b, c, c1, c2, names, names);
        KeepsMore(b, c, c2, names + names, names);
      } else {
        FailsNextRound(f, m, c, c1, c2, rest, fuel);
      }
    }
  }

  lemma AdvancesReaches(f: Function, m: Machine, c: Config, c2: Config)
    requires Advances(f, m, c, c2)
    ensures Reaches(f.blocks, m, c, c2)
  {}

  /** A finished loop stands in the block after it, still with its variable in scope. */
  ghost predicate LoopFollows(e: Expr, f: Function, m: Machine, b: GenState, tail: GenState, c: Config, c2: Config,
          out: Outcome<Double>, fuel: nat)
    requires e.For?
  {
    if out.Done? then
      && out.value == m.fp.zero && Reaches(f.blocks, m, c, c2) && c2.block == tail.cur && c2.pc == 0
      && c2.world == out.world
      && Matches(out.env, b, c2) && Keeps(b, c, c2, AssignedInside(e) + {e.varName})
    else Fails(f, m, c, c2, out, fuel)
  }

  /** One round of EvalLoop: whether there is another, and the environment and world it leaves. */
  ghost function EvalRound(e: Expr, env: Env, w: World, m: Machine, fuel: nat): Outcome<bool>
    requires e.For?
  {
    var b := Eval(e.body, env, w, m, fuel);
    if !b.Done? then b.Fail() else
    var s := EvalOption(e.step, m.fp.one, b.env, b.world, m, fuel);
    if !s.Done? then s.Fail() else
    var c := Eval(e.end, s.env, s.world, m, fuel);
    if !c.Done? then c.Fail() else
    if e.varName !in c.env then Stuck else
    Done(m.fp.fcmpONE(c.value, m.fp.zero), c.env[e.varName := m.fp.fadd(c.env[e.varName], s.value)], c.world)
  }

  lemma {:induction false} RoundCorrect(e: Expr, slot: nat, b: GenState, rb: Result, rp: Result, re: Result,
          f: Function, m: Machine, c: Config, env: Env, w: World, fuel: nat)
    returns (c2: Config)
    requires e.For? && DistinctBinders(e) && Ready(f, m, b, c, env, w) && b.blocks[b.cur] == []
    requires Lookup(b, e.varName) == Some(slot)
    requires rb == Gen(e.body, b) && rb.v.Some? && rp == GenOption(e.step, b.one, rb.s) && rp.v.Some?
    requires re == Gen(e.end, rp.s) && re.v.Some?
    requires Contains(f, rb.s) && Contains(f, rp.s) && Contains(f, re.s)
    requires Contains(f, ForTail(re.s, slot, rp.v.value, re.v.value, b.cur))
    ensures var out := EvalRound(e, env, w, m, fuel);
      if !out.Done? then Fails(f, m, c, c2, out, fuel)
      else
        && Advances(f, m, c, c2) && Keeps(b, c, c2, AssignedInside(e) + {e.varName})
        && c2.pc == 0
        && c2.block == (if out.value then b.cur else ForTail(re.s, slot, rp.v.value, re.v.value, b.cur).cur)
        && c2.world == out.world && Matches(out.env, b, c2) && Allocated(f, c2)
    decreases fuel, e, 0
  {
    hide Grows, Contains, Reaches, ForTail, WellNumbered, SlotsExist, SlotsDistinct, Matches, Keeps, SameScope,
      Advances;
    ReachesSelf(f, m, c);
    var c1 := CodegenCorrect(e.body, b, f, m, c, env, w, fuel);
    var o1 := Eval(e.body, env, w, m, fuel);
    if !o1.Done? { c2 := c1; FailsLater<Double, bool>(f, m, c, c, c1, o1, fuel); return; }
    ReadyAfter(f, m, e.body, b, c, c1, Assigned(e.body), env, w, o1.value, o1.env, o1.world);
    var c3 := OptionCorrect(e.step, b.one, rb.s, f, m, c1, o1.env, o1.world, fuel);
    var o2 := EvalOption(e.step, m.fp.one, o1.env, o1.world, m, fuel);
    if !o2.Done? { c2 := c3; FailsLater<Double, bool>(f, m, c, c1, c3, o2, fuel); return; }
    ReadyAfterOption(f, m, e.step, b.one, rb.s, c1, c3, AssignedOption(e.step), o1.env, o1.world, o2.value, o2.env,
      o2.world);
    ReachesTransitive(f, m, c, c1, c3);
    KeepsTransitive(b, rb.s, c, c1, c3, Assigned(e.body), AssignedOption(e.step));
    SameScopeTransitive(b, rb.s, rp.s);
    var c4 := CodegenCorrect(e.end, rp.s, f, m, c3, o2.env, o2.world, fuel);
    var o3 := Eval(e.end, o2.env, o2.world, m, fuel);
    if !o3.Done? { c2 := c4; FailsLater<Double, bool>(f, m, c, c3, c4, o3, fuel); return; }
    ReadyAfter(f, m, e.end, rp.s, c3, c4, Assigned(e.end), o2.env, o2.world, o3.value, o3.env, o3.world);
    ReachesTransitive(f, m, c, c3, c4);
    KeepsTransitive(b, rp.s, c, c3, c4, Assigned(e.body) + AssignedOption(e.step), Assigned(e.end));
    SameScopeTransitive(b, rp.s, re.s);
    LastingValue(rp.s, c3, c4, Assigned(e.end), rp.v.value);
    c2 := RoundEnds(e, slot, b, rp, re, f, m, c, c4, o3.env, o3.world, o2.value, o3.value);
  }

  lemma RoundEnds(e: Expr, slot: nat, b: GenState, rp: Result, re: Result, f: Function, m: Machine, c: Config,
          c1: Config, env: Env, w: World, d: Double, end: Double)
    returns (c2: Config)
    requires e.For? && rp.v.Some? && re.v.Some? && Lookup(b, e.varName) == Some(slot) && Ready(f, m, re.s, c1, env, w)
    requires Reaches(f.blocks, m, c, c1) && Keeps(b, c, c1, AssignedInside(e)) && SameScope(b, re.s)
    requires Value(rp.v.value, c1) == Some(d) && Lasting(rp.v.value, re.s) && Value(re.v.value, c1) == Some(end)
    requires Lasting(re.v.value, re.s)
    requires Contains(f, ForTail(re.s, slot, rp.v.value, re.v.value, b.cur))
    ensures e.varName in env && Advances(f, m, c, c2) && Keeps(b, c, c2, AssignedInside(e) + {e.varName})
    ensures c2.pc == 0
    ensures var after := ForTail(re.s, slot, rp.v.value, re.v.value, b.cur).cur;
      c2.block == if m.fp.fcmpONE(end, m.fp.zero) then b.cur else after
    ensures c2.world == w && Matches(env[e.varName := m.fp.fadd(env[e.varName], d)], b, c2) && Allocated(f, c2)
  {
    hide Reaches, Contains, Keeps, ForTail, WellNumbered, Advances;
    assert Lookup(re.s, e.varName) == Some(slot);
    c2 := TailRuns(f, m, e.varName, slot, rp.v.value, re.v.value, d, end, b.cur, re.s, c1, env, w);
    AdvancesAfter(f, m, c, c1, c2);
    KeepsTransitive(b, re.s, c, c1, c2, AssignedInside(e), {e.varName});
    forall x ensures Lookup(re.s, x) == Lookup(b, x) {}
  }

  lemma InsideSameScope(e: Expr, b: GenState)
    requires e.For? && DistinctBinders(e) && WellFormed(b)
    requires var rb := Gen(e.body, b); var rp := GenOption(e.step, b.one, rb.s);
      rb.v.Some? && rp.v.Some? && Gen(e.end, rp.s).v.Some?
    ensures SameScope(b, Gen(e.end, GenOption(e.step, b.one, Gen(e.body, b).s).s).s)
  {
    hide Grows;
    var rb := Gen(e.body, b);
    SameScopeAfter(e.body, b);
    var rp := GenOption(e.step, b.one, rb.s);
    if e.step.Some? {
      SameScopeAfter(e.step.value, rb.s);
      SameScopeTransitive(b, rb.s, rp.s);
    }
    SameScopeAfter(e.end, rp.s);
    SameScopeTransitive(b, rp.s, Gen(e.end, rp.s).s);
  }

  /** The name table in and after a loop. */
  lemma LoopShape(e: Expr, s: GenState, rs: Result, h: GenState, b: GenState, re: Result, rp: Result)
    requires e.For? && Gen(e, s).v.Some? && rs.v.Some? && rp.v.Some? && re.v.Some?
    requires h == ForHead(rs.s, |s.allocas|, rs.v.value) && b == Bind(h, e.varName, |s.allocas|)
    requires Gen(e, s) == Result(Some(Const(s.zero)),
      Unbind(ForTail(re.s, |s.allocas|, rp.v.value, re.v.value, h.cur), e.varName, Lookup(h, e.varName)))
    requires SameScope(s, rs.s) && SameScope(b, re.s)
    ensures s.nextTemp <= b.nextTemp && |s.allocas| <= |b.allocas|
    ensures forall y :: Lookup(b, y) == if y == e.varName then Some(|s.allocas|) else Lookup(s, y)
    ensures forall y :: Lookup(Gen(e, s).s, y) == if y == e.varName then Lookup(s, e.varName) else Lookup(b, y)
    ensures forall y :: Lookup(rs.s, y) == Lookup(s, y)
    ensures var u := Gen(e, s).s;
      && u.cur == ForTail(re.s, |s.allocas|, rp.v.value, re.v.value, h.cur).cur
      && u.cur in u.blocks && u.blocks[u.cur] == []
  {
    var x := e.varName;
    var u := Gen(e, s).s;
    var tail := ForTail(re.s, |s.allocas|, rp.v.value, re.v.value, h.cur);
    assert h.named == rs.s.named && |h.allocas| == |rs.s.allocas| && rs.s.nextTemp <= h.nextTemp;
    assert tail.named == re.s.named && tail.cur in tail.blocks && tail.blocks[tail.cur] == [];
    hide ForHead, ForTail, Gen;
    forall y ensures Lookup(b, y) == (if y == x then Some(|s.allocas|) else Lookup(s, y)) {
      assert Lookup(rs.s, y) == Lookup(s, y);
    }
    forall y ensures Lookup(u, y) == (if y == x then Lookup(s, x) else Lookup(b, y)) {
      assert Lookup(re.s, y) == Lookup(b, y) && Lookup(rs.s, x) == Lookup(s, x);
      assert Lookup(h, x) == Lookup(rs.s, x);
    }
  }

  /** The loop variable goes out of scope. */
  lemma LoopScopeEnds(e: Expr, s: GenState, rs: Result, h: GenState, b: GenState, re: Result, rp: Result, c: Config,
          c1: Config, c3: Config, c2: Config, outer: Env, inner: Env, d: Double)
    requires WellFormed(s) && e.For? && Gen(e, s).v.Some? && rs.v.Some? && rp.v.Some? && re.v.Some?
    requires h == ForHead(rs.s, |s.allocas|, rs.v.value) && b == Bind(h, e.varName, |s.allocas|)
    requires Gen(e, s) == Result(Some(Const(s.zero)),
      Unbind(ForTail(re.s, |s.allocas|, rp.v.value, re.v.value, h.cur), e.varName, Lookup(h, e.varName)))
    requires SameScope(s, rs.s) && SameScope(b, re.s)
    requires Matches(outer, rs.s, c1) && c3.mem == c1.mem[|s.allocas| := Some(d)]
    requires Keeps(s, c, c3, Assigned(e.start)) && Keeps(b, c3, c2, AssignedInside(e) + {e.varName})
    requires Matches(inner, b, c2)
    requires c2.block == ForTail(re.s, |s.allocas|, rp.v.value, re.v.value, h.cur).cur && c2.pc == 0
    ensures At(Gen(e, s).s, c2) && Matches(Restore(inner, e.varName, outer), Gen(e, s).s, c2)
    ensures Keeps(s, c, c2, Assigned(e))
  {
    hide Keeps, WellNumbered, ForHead, ForTail, Gen, Unbind, Bind, Restore;
    var x := e.varName;
    LoopShape(e, s, rs, h, b, re, rp);
    assert Shadows(s, b, x) && SlotsExist(s) && SlotsDistinct(s);
    hide SlotsExist, SlotsDistinct, Shadows, WellFormed;
    assert Matches(outer, s, c1) by { SameTableMatches(outer, rs.s, s, c1); }
    var u := Gen(e, s).s;
    hide Matches, SameScope, Lookup;
    ScopeEnds(s, b, b, u, x, c, c1, c3, c2, Assigned(e.start), AssignedInside(e) + {x}, outer, inner, |s.allocas|, d);
    KeepsMore(s, c, c2, Assigned(e.start) + (AssignedInside(e) + {x} - {x}), Assigned(e));
  }

  lemma SameTableMatches(env: Env, s: GenState, t: GenState, c: Config)
    requires Matches(env, s, c) && forall y :: Lookup(s, y) == Lookup(t, y)
    ensures Matches(env, t, c)
  {}

  /** A scope in which d binds x ends: from the table t on, only x gets back what it stood for in s, and memory
      still has the value of the outer x. */
  lemma ScopeEnds(s: GenState, d: GenState, t: GenState, u: GenState, x: string, c: Config, c1: Config, c3: Config,
          c2: Config, p: set<string>, q: set<string>, outer: Env, inner: Env, slot: nat, v: Double)
    requires SlotsExist(s) && SlotsDistinct(s) && Shadows(s, d, x)
    requires Matches(outer, s, c1) && |s.allocas| <= slot && c3.mem == c1.mem[slot := Some(v)]
    requires Keeps(s, c, c3, p) && Keeps(d, c3, c2, q) && Matches(inner, t, c2)
    requires forall y :: Lookup(u, y) == if y == x then Lookup(s, x) else Lookup(t, y)
    ensures Keeps(s, c, c2, p + (q - {x})) && Matches(Restore(inner, x, outer), u, c2)
  {
    KeepsThroughScope(s, d, x, c, c3, c2, p, q);
    hide Keeps, Shadows;
    if Lookup(s, x).Some? {
      OuterSurvives(s, d, x, c3, c2, q, Lookup(s, x).value);
    }
    MatchesAfterScope(s, t, u, x, c2, outer, inner);
  }

  /** The table after the names of e.vars[i..] have been restored. */
  ghost function Restored(r: VarsResult, e: Expr, i: nat): GenState
    requires e.VarIn? && i <= |e.vars| && |r.olds| == |e.vars| - i
  {
    r.s.(named := RestoreNames(r.s.named, e.vars[i..], r.olds))
  }

  lemma {:induction false} VarInCorrect(e: Expr, s: GenState, f: Function, m: Machine, c: Config, env: Env, w: World,
          fuel: nat)
    returns (c2: Config)
    requires Ready(f, m, s, c, env, w) && DistinctBinders(e) && e.VarIn?
    requires Gen(e, s).v.Some? && Contains(f, Gen(e, s).s)
    ensures Follows(f, m, s, c, c2, Eval(e, env, w, m, fuel), Gen(e, s), Assigned(e), fuel)
    decreases fuel, e, |e.vars| + 2
  {
    assert e.vars[0..] == e.vars;
    assert Restored(GenVars(e, 0, s), e, 0) == Gen(e, s).s;
    c2 := VarsCorrect(e, 0, s, f, m, c, env, w, fuel);
  }

  /** One entry of a var list: its initial value is computed and stored in a new slot, to which its name is bound
      from here on. In c1 the value has been computed. */
  lemma {:induction false} EntryCorrect(e: Expr, i: nat, s: GenState, f: Function, m: Machine, c: Config, env: Env,
          w: World, fuel: nat)
    returns (c1: Config, c2: Config)
    requires Ready(f, m, s, c, env, w) && e.VarIn? && i < |e.vars| && DistinctOption(e.vars[i].init)
    requires GenVars(e, i, s).v.Some? && Contains(f, GenVars(e, i, s).s)
    ensures var b := e.vars[i];
      var r := GenOption(b.init, s.zero, s);
      var d := DeclareVar(r.s, b.name, r.v.value);
      var out := EvalOption(b.init, m.fp.zero, env, w, m, fuel);
      if !out.Done? then Fails(f, m, c, c2, out, fuel)
      else
        && Reaches(f.blocks, m, c, c2) && Keeps(s, c, c2, AssignedOption(b.init)) && SameScope(s, r.s)
        && Matches(out.env, r.s, c1) && c2.mem == c1.mem[|r.s.allocas| := Some(out.value)]
        && Ready(f, m, d, c2, out.env[b.name := out.value], out.world)
    decreases fuel, e, 0
  {
    hide Grows, Contains, Keeps, Reaches, DeclareVar, Matches, SlotsExist, SlotsDistinct, WellNumbered, Allocated,
      SameScope, Lookup;
    var b := e.vars[i];
    var r := GenOption(b.init, s.zero, s);
    VarContains(f, e, i, s);
    c1 := OptionCorrect(b.init, s.zero, s, f, m, c, env, w, fuel);
    c2 := c1;
    var out := EvalOption(b.init, m.fp.zero, env, w, m, fuel);
    if out.Done? {
      ReadyAfterOption(f, m, b.init, s.zero, s, c, c1, AssignedOption(b.init), env, w, out.value, out.env, out.world);
      c2 := DeclareRuns(f, m, b.name, r.v.value, out.value, r.s, c1, out.env, out.world);
      ReachesTransitive(f, m, c, c1, c2);
      KeepsTransitive(s, r.s, c, c1, c2, AssignedOption(b.init), {});
      KeepsMore(s, c, c2, AssignedOption(b.init) + {}, AssignedOption(b.init));
    }
  }

  lemma {:induction false} VarsCorrect(e: Expr, i: nat, s: GenState, f: Function, m: Machine, c: Config, env: Env,
          w: World, fuel: nat)
    returns (c2: Config)
    requires Ready(f, m, s, c, env, w) && DistinctBinders(e) && e.VarIn? && i <= |e.vars|
    requires GenVars(e, i, s).v.Some? && Contains(f, GenVars(e, i, s).s)
    ensures var r := GenVars(e, i, s);
      Follows(f, m, s, c, c2, EvalVars(e, i, env, w, m, fuel), Result(r.v, Restored(r, e, i)), AssignedVars(e, i), fuel)
    decreases fuel, e, |e.vars| - i + 1
  {
    hide Grows, Contains, Keeps, Reaches, DeclareVar, Matches, SlotsExist, SlotsDistinct, WellNumbered, Allocated,
      SameScope, Lookup, Restored;
    if i == |e.vars| {
      NothingRestored(e, s);
      c2 := CodegenCorrect(e.body, s, f, m, c, env, w, fuel);
      return;
    }
    var b := e.vars[i];
    var r := GenOption(b.init, s.zero, s);
    var d := DeclareVar(r.s, b.name, r.v.value);
    var out := EvalOption(b.init, m.fp.zero, env, w, m, fuel);
    var c1, c3 := EntryCorrect(e, i, s, f, m, c, env, w, fuel);
    if !out.Done? { return c3; }
    var inner := out.env[b.name := out.value];
    c2 := VarsCorrect(e, i + 1, d, f, m, c3, inner, out.world, fuel);
    var rest := EvalVars(e, i + 1, inner, out.world, m, fuel);
    if rest.Done? {
      ReachesTransitive(f, m, c, c3, c2);
      VarScopeEnds(e, i, s, r, d, c, c1, c3, c2, out.env, rest.env, out.value, rest.value, rest.world);
    } else {
      FailsLater<Double, Double>(f, m, c, c3, c2, rest, fuel);
    }
  }

  lemma NothingRestored(e: Expr, s: GenState)
    requires e.VarIn?
    ensures Restored(GenVars(e, |e.vars|, s), e, |e.vars|) == Gen(e.body, s).s
  {}

  lemma VarContains(f: Function, e: Expr, i: nat, s: GenState)
    requires WellNumbered(s) && e.VarIn? && i < |e.vars| && GenVars(e, i, s).v.Some? && Contains(f, GenVars(e, i, s).s)
    ensures var r := GenOption(e.vars[i].init, s.zero, s);
      Contains(f, r.s) && Contains(f, DeclareVar(r.s, e.vars[i].name, r.v.value))
  {
    hide Contains, DeclareVar, Grows;
    var r := GenOption(e.vars[i].init, s.zero, s);
    var d := DeclareVar(r.s, e.vars[i].name, r.v.value);
    DeclareContains(f, e, i, s, r, d);
  }

  lemma DeclareContains(f: Function, e: Expr, i: nat, s: GenState, r: Result, d: GenState)
    requires WellNumbered(s) && e.VarIn? && i < |e.vars| && r == GenOption(e.vars[i].init, s.zero, s) && r.v.Some?
    requires d == DeclareVar(r.s, e.vars[i].name, r.v.value) && Contains(f, GenVars(e, i + 1, d).s)
    ensures Contains(f, r.s) && Contains(f, d)
  {
    GenOptionGrows(e.vars[i].init, s.zero, s);
    DeclareVarGrows(r.s, e.vars[i].name, r.v.value);
    hide DeclareVar;
    GenVarsGrows(e, i + 1, d);
    ContainsEarlier(f, d, GenVars(e, i + 1, d).s);
    ContainsEarlier(f, r.s, d);
  }

  /** The store of an initial value brings its variable into scope. */
  lemma DeclareRuns(f: Function, m: Machine, x: string, v: Operand, d: Double, s: GenState, c: Config, env: Env,
          w: World)
    returns (c2: Config)
    requires Ready(f, m, s, c, env, w) && Value(v, c) == Some(d) && Contains(f, DeclareVar(s, x, v))
    ensures Reaches(f.blocks, m, c, c2) && c2.mem == c.mem[|s.allocas| := Some(d)] && Keeps(s, c, c2, {})
    ensures Ready(f, m, DeclareVar(s, x, v), c2, env[x := d], w)
  {
    var a := NewAlloca(s, x);
    var t := DeclareVar(s, x, v);
    DeclareVarGrows(s, x, v);
    assert Contains(f, Emit(a, Store(v, |s.allocas|)));
    hide Grows;
    c2 := StoreRuns(f, m, |s.allocas|, v, d, a, c);
    forall y ensures Lookup(t, y) == if y == x then Some(|s.allocas|) else Lookup(s, y) {}
    assert WellNumbered(t) && At(t, c2);
    hide WellNumbered, Matches, Allocated, Contains, Emit, Reaches;
    BoundReady(f, m, s, t, x, |s.allocas|, d, c, c2, env, w);
  }

  /** The variable of one entry of a var list goes out of scope. */
  lemma VarScopeEnds(e: Expr, i: nat, s: GenState, r: Result, d: GenState, c: Config, c1: Config, c3: Config,
          c2: Config, outer: Env, inner: Env, v: Double, value: Double, w: World)
    requires WellFormed(s) && DistinctBinders(e) && e.VarIn? && i < |e.vars| && GenVars(e, i, s).v.Some?
    requires r == GenOption(e.vars[i].init, s.zero, s) && r.v.Some? && d == DeclareVar(r.s, e.vars[i].name, r.v.value)
    requires SameScope(s, r.s) && Matches(outer, r.s, c1) && c3.mem == c1.mem[|r.s.allocas| := Some(v)]
    requires Keeps(s, c, c3, AssignedOption(e.vars[i].init))
    requires var rest := GenVars(e, i + 1, d);
      Arrived(d, c3, c2, Result(rest.v, Restored(rest, e, i + 1)), AssignedVars(e, i + 1), value, inner, w)
    ensures var rest := GenVars(e, i, s);
      Arrived(s, c, c2, Result(rest.v, Restored(rest, e, i)), AssignedVars(e, i), value,
        Restore(inner, e.vars[i].name, outer), w)
  {
    hide Restore, Value;
    hide Keeps, WellNumbered, DistinctBinders, RestoreNames;
    var x := e.vars[i].name;
    var rest := GenVars(e, i + 1, d);
    var t, u := Restored(rest, e, i + 1), Restored(GenVars(e, i, s), e, i);
    assert At(u, c2) && u.nextTemp == t.nextTemp;
    hide Restored;
    DeclaredShadows(s, r, x, d);
    assert Matches(outer, s, c1) by { SameTableMatches(outer, r.s, s, c1); }
    forall y ensures Lookup(u, y) == if y == x then Lookup(s, x) else Lookup(t, y) {
      RestoredStep(e, i, r.s, d, rest, y);
      assert Lookup(r.s, x) == Lookup(s, x);
    }
    assert SlotsExist(s) && SlotsDistinct(s);
    hide Matches, SameScope, Lookup, SlotsExist, SlotsDistinct, Shadows, DeclareVar, WellFormed;
    ScopeEnds(s, d, t, u, x, c, c1, c3, c2, AssignedOption(e.vars[i].init), AssignedVars(e, i + 1), outer, inner,
      |r.s.allocas|, v);
  }

  lemma DeclaredShadows(s: GenState, r: Result, x: string, d: GenState)
    requires r.v.Some? && SameScope(s, r.s) && d == DeclareVar(r.s, x, r.v.value)
    ensures Shadows(s, d, x)
  {
    forall y ensures Lookup(d, y) == if y == x then Some(|r.s.allocas|) else Lookup(r.s, y) {}
  }

  /** Restoring from i on is restoring from i + 1 on and then giving the name at i its old slot. */
  lemma RestoredStep(e: Expr, i: nat, t: GenState, d: GenState, rest: VarsResult, y: string)
    requires DistinctBinders(e) && e.VarIn? && i < |e.vars| && |rest.olds| == |e.vars| - i - 1
    ensures var x := e.vars[i].name;
      Lookup(Restored(rest.(olds := [Lookup(t, x)] + rest.olds), e, i), y)
        == if y == x then Lookup(t, x) else Lookup(Restored(rest, e, i + 1), y)
  {
    var x := e.vars[i].name;
    var olds := [Lookup(t, x)] + rest.olds;
    assert e.vars[i..][1..] == e.vars[i + 1..] && olds[1..] == rest.olds;
    LookupAfterRestore(rest.s, e.vars[i..], olds, y);
    LookupAfterRestore(rest.s, e.vars[i + 1..], rest.olds, y);
    forall b | b in e.vars[i + 1..] ensures b.name != x {
      var k :| i + 1 <= k < |e.vars| && e.vars[k] == b;
    }
    NotRestored(Lookup(t, x), e.vars[i + 1..], rest.olds, x);
  }

  lemma {:induction false} NotRestored(look: Option<nat>, vars: seq<Binding>, olds: seq<Option<nat>>, x: string)
    requires |vars| == |olds| && forall b :: b in vars ==> b.name != x
    ensures AfterRestore(look, vars, olds, x) == look
    decreases |vars|
  {
    if vars != [] { NotRestored(look, vars[1..], olds[1..], x); }
  }
}
