/** Var lists that name a variable twice. The code generator ends their scopes in an order that leaves names bound
    to slots of the list. As long as no code that follows uses such a name the generated code is right: it is the
    code for the same expression with a list for every variable. If it does, the value can be wrong. */
module CodeGenLeak {
  import opened Wrappers
  import opened KaleidoscopeAst
  import opened KaleidoscopeEval
  import opened Ir
  import opened CodeGenSpec
  import opened CodeGenFrame
  import opened CodeGenScope
  import opened CodeGenRun
  import opened CodeGenLeaves
  import opened CodeGenCorrect

  function NestOption(e: Option<Expr>): Option<Expr>
    decreases e
  {
    if e.Some? then Some(Nest(e.value)) else None
  }

  /** The expression with a list for every variable, each the body of the one before. */
  function Nest(e: Expr): Expr
    decreases e
  {
    match e
    case Number(_) => e
    case Variable(_) => e
    case Unary(op, a) => Unary(op, Nest(a))
    case Binary(op, l, r) => Binary(op, Nest(l), Nest(r))
    case Call(f, args) => Call(f, seq(|args|, i requires 0 <= i < |args| => Nest(args[i])))
    case If(c, t, f) => If(Nest(c), Nest(t), Nest(f))
    case For(x, start, end, step, body) => For(x, Nest(start), Nest(end), NestOption(step), Nest(body))
    case VarIn(vars, body) => if vars == [] then VarIn([], Nest(body)) else NestVars(e, 0)
  }

  function NestVars(e: Expr, i: nat): Expr
    requires e.VarIn? && i <= |e.vars|
    decreases e, |e.vars| - i
  {
    if i == |e.vars| then Nest(e.body)
    else VarIn([Binding(e.vars[i].name, NestOption(e.vars[i].init))], NestVars(e, i + 1))
  }

  // ----- It means the same, and repeats no name -----

  lemma {:induction false} NestDistinct(e: Expr)
    ensures DistinctBinders(Nest(e))
    decreases e
  {
    match e
    case Number(_) =>
    case Variable(_) =>
    case Unary(_, a) => NestDistinct(a);
    case Binary(_, l, r) => NestDistinct(l); NestDistinct(r);
    case Call(_, args) => forall i | 0 <= i < |args| ensures DistinctBinders(Nest(args[i])) { NestDistinct(args[i]); }
    case If(c, t, f) => NestDistinct(c); NestDistinct(t); NestDistinct(f);
    case For(_, start, end, step, body) =>
      NestDistinct(start);
      NestDistinct(end);
      NestDistinct(body);
      if step.Some? { NestDistinct(step.value); }
    case VarIn(vars, body) => if vars == [] { NestDistinct(body); } else { NestVarsDistinct(e, 0); }
  }

  lemma {:induction false} NestVarsDistinct(e: Expr, i: nat)
    requires e.VarIn? && i <= |e.vars|
    ensures DistinctBinders(NestVars(e, i))
    decreases e, |e.vars| - i
  {
    if i == |e.vars| {
      NestDistinct(e.body);
    } else {
      if e.vars[i].init.Some? { NestDistinct(e.vars[i].init.value); }
      NestVarsDistinct(e, i + 1);
    }
  }

  lemma {:induction false} EvalNestOption(e: Option<Expr>, default: Double, env: Env, w: World, m: Machine, fuel: nat)
    ensures EvalOption(NestOption(e), default, env, w, m, fuel) == EvalOption(e, default, env, w, m, fuel)
    decreases fuel, e
  {
    if e.Some? { EvalNest(e.value, env, w, m, fuel); }
  }

  lemma {:induction false} EvalNest(e: Expr, env: Env, w: World, m: Machine, fuel: nat)
    ensures Eval(Nest(e), env, w, m, fuel) == Eval(e, env, w, m, fuel)
    decreases fuel, e
  {
    match e
    case Number(_) =>
    case Variable(_) =>
    case Unary(_, a) => EvalNest(a, env, w, m, fuel);
    case Binary(op, l, r) =>
      if op == '=' {
        NestKind(l);
        EvalNest(r, env, w, m, fuel);
      } else {
        EvalNest(l, env, w, m, fuel);
        var a := Eval(l, env, w, m, fuel);
        if a.Done? { EvalNest(r, a.env, a.world, m, fuel); }
      }
    case Call(_, _) => EvalNestArgs(e, 0, env, w, m, fuel);
    case If(c, t, f) =>
      EvalNest(c, env, w, m, fuel);
      var r := Eval(c, env, w, m, fuel);
      if r.Done? {
        EvalNest(t, r.env, r.world, m, fuel);
        EvalNest(f, r.env, r.world, m, fuel);
      }
    case For(x, start, _, _, _) =>
      EvalNest(start, env, w, m, fuel);
      var r := Eval(start, env, w, m, fuel);
      if r.Done? { EvalNestLoop(e, r.env[x := r.value], r.world, m, fuel); }
    case VarIn(vars, body) =>
      if vars == [] { EvalNest(body, env, w, m, fuel); } else { EvalNestVars(e, 0, env, w, m, fuel); }
  }

  lemma NestKind(e: Expr)
    ensures Nest(e).Variable? <==> e.Variable?
    ensures e.Variable? ==> Nest(e) == e
  {}

  lemma {:induction false} EvalNestArgs(e: Expr, i: nat, env: Env, w: World, m: Machine, fuel: nat)
    requires e.Call? && i <= |e.args|
    ensures EvalArgs(Nest(e), i, env, w, m, fuel) == EvalArgs(e, i, env, w, m, fuel)
    decreases fuel, e, |e.args| - i
  {
    if i < |e.args| {
      EvalNest(e.args[i], env, w, m, fuel);
      var a := Eval(e.args[i], env, w, m, fuel);
      if a.Done? { EvalNestArgs(e, i + 1, a.env, a.world, m, fuel); }
    }
  }

  lemma {:induction false} EvalNestLoop(e: Expr, env: Env, w: World, m: Machine, fuel: nat)
    requires e.For?
    ensures EvalLoop(Nest(e), env, w, m, fuel) == EvalLoop(e, env, w, m, fuel)
    decreases fuel, e, 0
  {
    if fuel > 0 {
      EvalNest(e.body, env, w, m, fuel);
      var b := Eval(e.body, env, w, m, fuel);
      if !b.Done? { return; }
      EvalNestOption(e.step, m.fp.one, b.env, b.world, m, fuel);
      var s := EvalOption(e.step, m.fp.one, b.env, b.world, m, fuel);
      if !s.Done? { return; }
      EvalNest(e.end, s.env, s.world, m, fuel);
      var c := Eval(e.end, s.env, s.world, m, fuel);
      if c.Done? && e.varName in c.env {
        EvalNestLoop(e, c.env[e.varName := m.fp.fadd(c.env[e.varName], s.value)], c.world, m, fuel - 1);
      }
    }
  }

  lemma {:induction false} EvalNestVars(e: Expr, i: nat, env: Env, w: World, m: Machine, fuel: nat)
    requires e.VarIn? && i <= |e.vars|
    ensures Eval(NestVars(e, i), env, w, m, fuel) == EvalVars(e, i, env, w, m, fuel)
    decreases fuel, e, |e.vars| - i
  {
    if i == |e.vars| {
      EvalNest(e.body, env, w, m, fuel);
    } else {
      var b := e.vars[i];
      EvalNestOption(b.init, m.fp.zero, env, w, m, fuel);
      var r := EvalOption(b.init, m.fp.zero, env, w, m, fuel);
      if r.Done? {
        var n, inner := NestVars(e, i), r.env[b.name := r.value];
        EvalNestVars(e, i + 1, inner, r.world, m, fuel);
        assert EvalVars(n, 1, inner, r.world, m, fuel) == Eval(NestVars(e, i + 1), inner, r.world, m, fuel);
      }
    }
  }

  // ----- Names used after they leak -----

  ghost function UsesOption(e: Option<Expr>): set<string>
    decreases e
  {
    if e.Some? then Uses(e.value) else {}
  }

  /** The names from outside e that e uses. */
  ghost function Uses(e: Expr): set<string>
    decreases e
  {
    match e
    case Number(_) => {}
    case Variable(x) => {x}
    case Unary(_, a) => Uses(a)
    case Binary(_, l, r) => Uses(l) + Uses(r)
    case Call(_, _) => UsesArgs(e, 0)
    case If(c, t, f) => Uses(c) + (Uses(t) + Uses(f))
    case For(x, start, _, _, _) => Uses(start) + (UsesInside(e) - {x})
    case VarIn(_, _) => UsesVars(e, 0)
  }

  ghost function UsesInside(e: Expr): set<string>
    requires e.For?
    decreases e, 0
  {
    Uses(e.body) + (UsesOption(e.step) + Uses(e.end))
  }

  ghost function UsesArgs(e: Expr, i: nat): set<string>
    requires e.Call? && i <= |e.args|
    decreases e, |e.args| - i
  {
    if i == |e.args| then {} else Uses(e.args[i]) + UsesArgs(e, i + 1)
  }

  ghost function UsesVars(e: Expr, i: nat): set<string>
    requires e.VarIn? && i <= |e.vars|
    decreases e, |e.vars| - i
  {
    if i == |e.vars| then Uses(e.body)
    else UsesOption(e.vars[i].init) + (UsesVars(e, i + 1) - {e.vars[i].name})
  }

  ghost predicate OptionLeaksUnused(e: Option<Expr>)
    decreases e
  {
    e.Some? ==> LeaksUnused(e.value)
  }

  /** No name that one part of e leaks is used by a part that is generated after it. */
  ghost predicate LeaksUnused(e: Expr)
    decreases e
  {
    match e
    case Number(_) => true
    case Variable(_) => true
    case Unary(_, a) => LeaksUnused(a)
    case Binary(op, l, r) =>
      && LeaksUnused(l) && LeaksUnused(r)
      && if op == '=' then Leak(r) !! Uses(l) else Leak(l) !! Uses(r)
    case Call(_, _) => ArgLeaksUnused(e, 0)
    case If(c, t, f) =>
      && LeaksUnused(c) && LeaksUnused(t) && LeaksUnused(f)
      && Leak(c) !! Uses(t) + Uses(f) && Leak(t) !! Uses(f)
    case For(x, start, end, step, body) =>
      && LeaksUnused(start) && LeaksUnused(body) && OptionLeaksUnused(step) && LeaksUnused(end)
      && Leak(start) !! UsesInside(e) - {x}
      && Leak(body) !! UsesOption(step) + Uses(end) && LeakOption(step) !! Uses(end)
    case VarIn(_, _) => VarLeaksUnused(e, 0)
  }

  ghost predicate ArgLeaksUnused(e: Expr, i: nat)
    requires e.Call? && i <= |e.args|
    decreases e, |e.args| - i
  {
    i < |e.args| ==>
      LeaksUnused(e.args[i]) && Leak(e.args[i]) !! UsesArgs(e, i + 1) && ArgLeaksUnused(e, i + 1)
  }

  ghost predicate VarLeaksUnused(e: Expr, i: nat)
    requires e.VarIn? && i <= |e.vars|
    decreases e, |e.vars| - i
  {
    if i == |e.vars| then LeaksUnused(e.body)
    else
      && OptionLeaksUnused(e.vars[i].init) && VarLeaksUnused(e, i + 1)
      && LeakOption(e.vars[i].init) !! UsesVars(e, i + 1) - {e.vars[i].name}
  }

  lemma {:induction false} DistinctLeaksUnused(e: Expr)
    requires DistinctBinders(e)
    ensures LeaksUnused(e)
    decreases e
  {
    match e
    case Number(_) =>
    case Variable(_) =>
    case Unary(_, a) => DistinctLeaksUnused(a);
    case Binary(_, l, r) =>
      DistinctLeaksUnused(l);
      DistinctLeaksUnused(r);
      DistinctBindersNeverLeak(l);
      DistinctBindersNeverLeak(r);
    case Call(_, _) => DistinctArgLeaksUnused(e, 0);
    case If(c, t, f) =>
      DistinctLeaksUnused(c);
      DistinctLeaksUnused(t);
      DistinctLeaksUnused(f);
      DistinctBindersNeverLeak(c);
      DistinctBindersNeverLeak(t);
    case For(_, start, end, step, body) =>
      DistinctLeaksUnused(start);
      DistinctLeaksUnused(body);
      DistinctLeaksUnused(end);
      DistinctBindersNeverLeak(start);
      DistinctBindersNeverLeak(body);
      if step.Some? {
        DistinctLeaksUnused(step.value);
        DistinctBindersNeverLeak(step.value);
      }
    case VarIn(_, _) => DistinctVarLeaksUnused(e, 0);
  }

  lemma {:induction false} DistinctArgLeaksUnused(e: Expr, i: nat)
    requires e.Call? && i <= |e.args| && DistinctBinders(e)
    ensures ArgLeaksUnused(e, i)
    decreases e, |e.args| - i
  {
    if i < |e.args| {
      DistinctLeaksUnused(e.args[i]);
      DistinctBindersNeverLeak(e.args[i]);
      DistinctArgLeaksUnused(e, i + 1);
    }
  }

  lemma {:induction false} DistinctVarLeaksUnused(e: Expr, i: nat)
    requires e.VarIn? && i <= |e.vars| && DistinctBinders(e)
    ensures VarLeaksUnused(e, i)
    decreases e, |e.vars| - i
  {
    if i == |e.vars| {
      DistinctLeaksUnused(e.body);
    } else {
      var init := e.vars[i].init;
      if init.Some? {
        DistinctLeaksUnused(init.value);
        DistinctBindersNeverLeak(init.value);
      }
      DistinctVarLeaksUnused(e, i + 1);
    }
  }

  // ----- It is generated the same -----

  /** Two states that differ in their name tables only. */
  ghost predicate SameCode(s: GenState, t: GenState) {
    t == s.(named := t.named)
  }

  /** And whose tables agree on names. */
  ghost predicate Twins(s: GenState, t: GenState, names: set<string>) {
    && SameCode(s, t) && WellNumbered(s) && SlotsExist(s) && SlotsExist(t)
    && forall x :: x in names ==> Lookup(t, x) == Lookup(s, x)
  }

  ghost predicate SameResult(r: Result, q: Result) {
    r.v.Some? && q.v == r.v && SameCode(r.s, q.s)
  }

  lemma TwinsOfFewer(s: GenState, t: GenState, names: set<string>, fewer: set<string>)
    requires Twins(s, t, names) && fewer <= names
    ensures Twins(s, t, fewer)
  {}

  lemma TwinsSameTable(s: GenState, t: GenState, s2: GenState, t2: GenState, names: set<string>)
    requires Twins(s, t, names) && s2.named == s.named && t2.named == t.named && SameCode(s2, t2)
    requires WellNumbered(s2) && |s.allocas| <= |s2.allocas|
    ensures Twins(s2, t2, names)
  {
    forall x ensures Lookup(s2, x) == Lookup(s, x) && Lookup(t2, x) == Lookup(t, x) {}
  }

  /** Both generate e: they still agree on the names that e does not leak. */
  lemma TwinsAfter(e: Expr, s: GenState, t: GenState, names: set<string>)
    requires Twins(s, t, names) && names !! Leak(e) && SameResult(Gen(e, s), Gen(Nest(e), t))
    ensures Twins(Gen(e, s).s, Gen(Nest(e), t).s, names)
  {
    hide Gen, Leak, Nest;
    NestDistinct(e);
    DistinctBindersNeverLeak(Nest(e));
    GenGrows(e, s);
    NamesAfterGen(e, s);
    NamesAfterGen(Nest(e), t);
  }

  lemma OptionTwinsAfter(e: Option<Expr>, default: Double, s: GenState, t: GenState, names: set<string>)
    requires Twins(s, t, names) && names !! LeakOption(e)
    requires SameResult(GenOption(e, default, s), GenOption(NestOption(e), default, t))
    ensures Twins(GenOption(e, default, s).s, GenOption(NestOption(e), default, t).s, names)
  {
    if e.Some? { TwinsAfter(e.value, s, t, names); }
  }

  lemma SameCodeCall(f: string, vs: seq<Operand>, s: GenState, t: GenState)
    requires SameCode(s, t) && GenCall(f, vs, s).v.Some?
    ensures SameResult(GenCall(f, vs, s), GenCall(f, vs, t))
  {}

  lemma SameCodeOperator(op: char, a: Operand, b: Operand, s: GenState, t: GenState)
    requires SameCode(s, t) && GenBinary(op, a, b, s).v.Some?
    ensures SameResult(GenBinary(op, a, b, s), GenBinary(op, a, b, t))
  {
    hide SameCode, Emit;
    SameCounters(s, t);
    forall i ensures SameResult(Define(s, i), Define(t, i)) { SameCodeDefine(s, t, i); }
    if op == '<' {
      var i := FCmpULT(s.nextTemp, a, b);
      SameCounters(Define(s, i).s, Define(t, i).s);
      SameCodeDefine(Define(s, i).s, Define(t, i).s, UIToFP(s.nextTemp + 1, Temp(s.nextTemp)));
    }
  }

  lemma SameCodeDefine(s: GenState, t: GenState, i: Instr)
    requires SameCode(s, t)
    ensures SameResult(Define(s, i), Define(t, i))
  {}

  lemma SameCodeEmit(s: GenState, t: GenState, i: Instr)
    requires SameCode(s, t)
    ensures SameCode(Emit(s, i), Emit(t, i))
  {}

  lemma SameCodeVariable(x: string, s: GenState, t: GenState)
    requires SameCode(s, t) && Lookup(t, x) == Lookup(s, x) && GenVariable(x, s).v.Some?
    ensures SameResult(GenVariable(x, s), GenVariable(x, t))
  {}

  lemma SameCodeAssign(x: string, v: Operand, s: GenState, t: GenState)
    requires SameCode(s, t) && Lookup(t, x) == Lookup(s, x) && GenAssign(x, v, s).v.Some?
    ensures SameResult(GenAssign(x, v, s), GenAssign(x, v, t))
  {}

  /** A whole expression: the code for e, in a table where the names it uses are what they are in the other. */
  lemma {:induction false} GenNest(e: Expr, s: GenState, t: GenState)
    requires Twins(s, t, Uses(e)) && LeaksUnused(e) && Gen(e, s).v.Some?
    ensures SameResult(Gen(e, s), Gen(Nest(e), t))
    decreases e
  {
    hide GenCall, GenVariable, GenBinary, RestoreNames;
    match e
    case Number(_) =>
    case Variable(x) => SameCodeVariable(x, s, t);
    case Unary(op, a) =>
      GenNest(a, s, t);
      SameCodeCall(UnaryName(op), [Gen(a, s).v.value], Gen(a, s).s, Gen(Nest(a), t).s);
    case Binary(_, _, _) => GenNestBinary(e, s, t);
    case Call(f, _) =>
      GenNestArgs(e, 0, s, t);
      SameCodeCall(f, GenArgs(e, 0, s).vs.value, GenArgs(e, 0, s).s, GenArgs(Nest(e), 0, t).s);
    case If(_, _, _) => GenNestIf(e, s, t);
    case For(_, _, _, _, _) => GenNestFor(e, s, t);
    case VarIn(vars, body) =>
      if vars == [] { GenNest(body, s, t); } else { GenNestVars(e, 0, s, t); }
  }

  lemma {:induction false} GenNestOption(e: Option<Expr>, default: Double, s: GenState, t: GenState)
    requires Twins(s, t, UsesOption(e)) && OptionLeaksUnused(e) && GenOption(e, default, s).v.Some?
    ensures SameResult(GenOption(e, default, s), GenOption(NestOption(e), default, t))
    decreases e
  {
    if e.Some? { GenNest(e.value, s, t); }
  }

  lemma {:induction false} GenNestBinary(e: Expr, s: GenState, t: GenState)
    requires Twins(s, t, Uses(e)) && LeaksUnused(e) && e.Binary? && Gen(e, s).v.Some?
    ensures SameResult(Gen(e, s), Gen(Nest(e), t))
    decreases e, 0
  {
    hide Twins, GenAssign, GenBinary;
    TwinsOfFewer(s, t, Uses(e), Uses(e.lhs));
    TwinsOfFewer(s, t, Uses(e), Uses(e.rhs));
    if e.op == '=' {
      GenNest(e.rhs, s, t);
      TwinsAfter(e.rhs, s, t, Uses(e.lhs));
      var r, q := Gen(e.rhs, s), Gen(Nest(e.rhs), t);
      TwinsLookup(r.s, q.s, Uses(e.lhs), e.lhs.name);
      SameCodeAssign(e.lhs.name, r.v.value, r.s, q.s);
    } else {
      GenNest(e.lhs, s, t);
      TwinsAfter(e.lhs, s, t, Uses(e.rhs));
      var a, p := Gen(e.lhs, s), Gen(Nest(e.lhs), t);
      GenNest(e.rhs, a.s, p.s);
      var b, q := Gen(e.rhs, a.s), Gen(Nest(e.rhs), p.s);
      SameCodeOperator(e.op, a.v.value, b.v.value, b.s, q.s);
    }
  }

  lemma TwinsLookup(s: GenState, t: GenState, names: set<string>, x: string)
    requires Twins(s, t, names) && x in names
    ensures Lookup(t, x) == Lookup(s, x) && SameCode(s, t)
  {}

  lemma {:induction false} GenNestArgs(e: Expr, i: nat, s: GenState, t: GenState)
    requires e.Call? && i <= |e.args| && Twins(s, t, UsesArgs(e, i)) && ArgLeaksUnused(e, i)
    requires GenArgs(e, i, s).vs.Some?
    ensures var r, q := GenArgs(e, i, s), GenArgs(Nest(e), i, t);
      q.vs == r.vs && SameCode(r.s, q.s)
    decreases e, |e.args| - i
  {
    if i < |e.args| {
      var a := e.args[i];
      assert Twins(s, t, Uses(a)) && Twins(s, t, UsesArgs(e, i + 1));
      hide Twins;
      GenNest(a, s, t);
      TwinsAfter(a, s, t, UsesArgs(e, i + 1));
      GenNestArgs(e, i + 1, Gen(a, s).s, Gen(Nest(a), t).s);
    }
  }

  lemma {:induction false} GenNestIf(e: Expr, s: GenState, t: GenState)
    requires Twins(s, t, Uses(e)) && LeaksUnused(e) && e.If? && Gen(e, s).v.Some?
    ensures SameResult(Gen(e, s), Gen(Nest(e), t))
    decreases e, 0
  {
    hide IfHead, IfElse, IfMerge, Grows, Twins, SameCode;
    assert WellNumbered(s) by { TwinsNumbered(s, t, Uses(e)); }
    var rc, h, rt, els, rf := IfParts(e, s);
    GrownWellNumbered(rc.s, h);
    GrownWellNumbered(rc.s, els);
    TwinsOfFewer(s, t, Uses(e), Uses(e.cond));
    TwinsOfFewer(s, t, Uses(e), Uses(e.thn) + Uses(e.els));
    GenNest(e.cond, s, t);
    TwinsAfter(e.cond, s, t, Uses(e.thn) + Uses(e.els));
    var qc := Gen(Nest(e.cond), t);
    TwinsHead(rc.s, qc.s, rc.v.value, Uses(e.thn) + Uses(e.els));
    var g := IfHead(qc.s, rc.v.value);
    TwinsOfFewer(h, g, Uses(e.thn) + Uses(e.els), Uses(e.thn));
    TwinsOfFewer(h, g, Uses(e.thn) + Uses(e.els), Uses(e.els));
    GenNest(e.thn, h, g);
    TwinsAfter(e.thn, h, g, Uses(e.els));
    var qt := Gen(Nest(e.thn), g);
    TwinsElse(rt.s, qt.s, rc.s.nextBlock, Uses(e.els));
    var k := IfElse(qt.s, rc.s.nextBlock);
    GenNest(e.els, els, k);
    var qf := Gen(Nest(e.els), k);
    SameCodeMerge(rf.s, qf.s, rc.s.nextBlock, rt.v.value, rt.s.cur, rf.v.value);
    SameCounters(rc.s, qc.s);
    SameCounters(rt.s, qt.s);
  }

  lemma TwinsNumbered(s: GenState, t: GenState, names: set<string>)
    requires Twins(s, t, names)
    ensures WellNumbered(s)
  {}

  lemma SameCounters(s: GenState, t: GenState)
    requires SameCode(s, t)
    ensures t.nextTemp == s.nextTemp && t.nextBlock == s.nextBlock && t.cur == s.cur && t.funcs == s.funcs
  {}

  lemma TwinsHead(s: GenState, t: GenState, v: Operand, names: set<string>)
    requires Twins(s, t, names) && WellNumbered(IfHead(s, v))
    ensures Twins(IfHead(s, v), IfHead(t, v), names)
  {
    TwinsSameTable(s, t, IfHead(s, v), IfHead(t, v), names);
  }

  lemma TwinsElse(s: GenState, t: GenState, n: nat, names: set<string>)
    requires Twins(s, t, names) && WellNumbered(IfElse(s, n))
    ensures Twins(IfElse(s, n), IfElse(t, n), names)
  {
    TwinsSameTable(s, t, IfElse(s, n), IfElse(t, n), names);
  }

  lemma SameCodeMerge(s: GenState, t: GenState, n: nat, v: Operand, from: nat, u: Operand)
    requires SameCode(s, t)
    ensures SameResult(IfMerge(s, n, v, from, u), IfMerge(t, n, v, from, u))
  {}

  lemma {:induction false} GenNestFor(e: Expr, s: GenState, t: GenState)
    requires Twins(s, t, Uses(e)) && LeaksUnused(e) && e.For? && Gen(e, s).v.Some?
    ensures SameResult(Gen(e, s), Gen(Nest(e), t))
    decreases e, 0
  {
    hide ForHead, ForTail, Twins, SameCode, Unbind, NewAlloca, Grows;
    var x, slot := e.varName, |s.allocas|;
    assert WellNumbered(s) by { TwinsNumbered(s, t, Uses(e)); }
    var a, rs, h, b, rb, rp, re := ForParts(e, s);
    NestForParts(e, s, t, a, rs, h, b, rb, rp, re);
    TwinsAlloca(s, t, x, Uses(e));
    var a2 := NewAlloca(t, x);
    TwinsOfFewer(a, a2, Uses(e), Uses(e.start));
    TwinsOfFewer(a, a2, Uses(e), UsesInside(e) - {x});
    GenNest(e.start, a, a2);
    TwinsAfter(e.start, a, a2, UsesInside(e) - {x});
    var qs := Gen(Nest(e.start), a2);
    TwinsLoop(rs.s, qs.s, slot, rs.v.value, x, UsesInside(e));
    var b2 := Bind(ForHead(qs.s, slot, rs.v.value), x, slot);
    TwinsOfFewer(b, b2, UsesInside(e), Uses(e.body));
    TwinsOfFewer(b, b2, UsesInside(e), UsesOption(e.step) + Uses(e.end));
    GenNest(e.body, b, b2);
    TwinsAfter(e.body, b, b2, UsesOption(e.step) + Uses(e.end));
    var qb := Gen(Nest(e.body), b2);
    TwinsOfFewer(rb.s, qb.s, UsesOption(e.step) + Uses(e.end), UsesOption(e.step));
    TwinsOfFewer(rb.s, qb.s, UsesOption(e.step) + Uses(e.end), Uses(e.end));
    GenNestOption(e.step, s.one, rb.s, qb.s);
    OptionTwinsAfter(e.step, s.one, rb.s, qb.s, Uses(e.end));
    var qp := GenOption(NestOption(e.step), s.one, qb.s);
    GenNest(e.end, rp.s, qp.s);
    var qe := Gen(Nest(e.end), qp.s);
    SameCodeTail(re.s, qe.s, slot, rp.v.value, re.v.value, h.cur);
    SameCodeUnbind(ForTail(re.s, slot, rp.v.value, re.v.value, h.cur),
      ForTail(qe.s, slot, rp.v.value, re.v.value, h.cur), x, Lookup(h, x), Lookup(ForHead(qs.s, slot, rs.v.value), x));
  }

  lemma NestForParts(e: Expr, s: GenState, t: GenState, a: GenState, rs: Result, h: GenState, b: GenState, rb: Result,
          rp: Result, re: Result)
    requires e.For? && Twins(s, t, Uses(e)) && AreForParts(e, s, a, rs, h, b, rb, rp, re)
    ensures WellNumbered(h) && WellNumbered(b) && |s.allocas| < |rs.s.allocas|
    ensures SameCode(s, t) && t.zero == s.zero && t.one == s.one && |t.allocas| == |s.allocas|
  {}

  lemma TwinsAlloca(s: GenState, t: GenState, x: string, names: set<string>)
    requires Twins(s, t, names)
    ensures Twins(NewAlloca(s, x), NewAlloca(t, x), names)
  {
    TwinsSameTable(s, t, NewAlloca(s, x), NewAlloca(t, x), names);
  }

  lemma TwinsLoop(s: GenState, t: GenState, slot: nat, v: Operand, x: string, names: set<string>)
    requires Twins(s, t, names - {x}) && slot < |s.allocas| && WellNumbered(ForHead(s, slot, v))
    ensures Twins(Bind(ForHead(s, slot, v), x, slot), Bind(ForHead(t, slot, v), x, slot), names)
    ensures ForHead(t, slot, v).cur == ForHead(s, slot, v).cur
  {
    var h, g := ForHead(s, slot, v), ForHead(t, slot, v);
    TwinsSameTable(s, t, h, g, names - {x});
    TwinsBound(h, g, x, slot, names);
  }

  lemma TwinsBound(s: GenState, t: GenState, x: string, slot: nat, names: set<string>)
    requires Twins(s, t, names - {x}) && slot < |s.allocas|
    ensures Twins(Bind(s, x, slot), Bind(t, x, slot), names)
  {
    var b, d := Bind(s, x, slot), Bind(t, x, slot);
    forall y ensures Lookup(b, y) == (if y == x then Some(slot) else Lookup(s, y)) {}
    forall y ensures Lookup(d, y) == (if y == x then Some(slot) else Lookup(t, y)) {}
  }

  lemma SameCodeTail(s: GenState, t: GenState, slot: nat, step: Operand, end: Operand, loop: nat)
    requires SameCode(s, t)
    ensures SameCode(ForTail(s, slot, step, end, loop), ForTail(t, slot, step, end, loop))
  {
    SameCodeIncrement(s, t, slot, step);
    hide Increment, Emit;
    var a, b := Increment(s, slot, step), Increment(t, slot, step);
    var i := FCmpONE(a.nextTemp, end, Const(s.zero));
    SameCodeDefine(a, b, i);
    SameCodeEmit(Define(a, i).s, Define(b, i).s, CondBr(Temp(a.nextTemp), loop, Define(a, i).s.nextBlock));
  }

  lemma SameCodeIncrement(s: GenState, t: GenState, slot: nat, step: Operand)
    requires SameCode(s, t)
    ensures SameCode(Increment(s, slot, step), Increment(t, slot, step))
  {
    hide Emit;
    var i, j := Load(s.nextTemp, slot), FBinary(s.nextTemp + 1, FAdd, Temp(s.nextTemp), step);
    SameCodeDefine(s, t, i);
    SameCodeDefine(Define(s, i).s, Define(t, i).s, j);
    SameCodeEmit(NextValue(s, slot, step), NextValue(t, slot, step), Store(Temp(s.nextTemp + 1), slot));
  }

  lemma SameCodeUnbind(s: GenState, t: GenState, x: string, p: Option<nat>, q: Option<nat>)
    requires SameCode(s, t)
    ensures SameCode(Unbind(s, x, p), Unbind(t, x, q))
  {}

  lemma {:induction false} GenNestVars(e: Expr, i: nat, s: GenState, t: GenState)
    requires e.VarIn? && i <= |e.vars| && Twins(s, t, UsesVars(e, i)) && VarLeaksUnused(e, i)
    requires GenVars(e, i, s).v.Some?
    ensures var r := GenVars(e, i, s);
      SameResult(Result(r.v, r.s), Gen(NestVars(e, i), t))
    decreases e, |e.vars| - i
  {
    if i == |e.vars| {
      GenNest(e.body, s, t);
    } else {
      var b := e.vars[i];
      hide Twins, DeclareVar, RestoreNames, SameCode;
      TwinsOfFewer(s, t, UsesVars(e, i), UsesOption(b.init));
      TwinsOfFewer(s, t, UsesVars(e, i), UsesVars(e, i + 1) - {b.name});
      SameConstant(s, t, UsesVars(e, i));
      GenNestOption(b.init, s.zero, s, t);
      OptionTwinsAfter(b.init, s.zero, s, t, UsesVars(e, i + 1) - {b.name});
      var r, q := GenOption(b.init, s.zero, s), GenOption(NestOption(b.init), s.zero, t);
      TwinsDeclared(r.s, q.s, b.name, r.v.value, UsesVars(e, i + 1));
      var d := DeclareVar(q.s, b.name, r.v.value);
      GenNestVars(e, i + 1, DeclareVar(r.s, b.name, r.v.value), d);
      NestedVars(e, i, t, d);
    }
  }

  lemma SameConstant(s: GenState, t: GenState, names: set<string>)
    requires Twins(s, t, names)
    ensures t.zero == s.zero && t.one == s.one
  {}

  /** What a list of one variable generates. */
  lemma NestedVars(e: Expr, i: nat, t: GenState, d: GenState)
    requires e.VarIn? && i < |e.vars|
    requires var q := GenOption(NestOption(e.vars[i].init), t.zero, t);
      q.v.Some? && d == DeclareVar(q.s, e.vars[i].name, q.v.value)
    ensures var r, n := Gen(NestVars(e, i + 1), d), Gen(NestVars(e, i), t);
      n.v == r.v && (r.v.Some? ==> SameCode(r.s, n.s))
  {
    hide DeclareVar, RestoreNames;
    var n := NestVars(e, i);
    var r := Gen(n.body, d);
    assert GenVars(n, 1, d) == VarsResult(r.v, r.s, []);
  }

  lemma TwinsDeclared(s: GenState, t: GenState, x: string, v: Operand, names: set<string>)
    requires Twins(s, t, names - {x})
    ensures Twins(DeclareVar(s, x, v), DeclareVar(t, x, v), names)
  {
    var a, b := Emit(NewAlloca(s, x), Store(v, |s.allocas|)), Emit(NewAlloca(t, x), Store(v, |s.allocas|));
    TwinsSameTable(s, t, a, b, names - {x});
    TwinsBound(a, b, x, |s.allocas|, names);
  }

  // ----- The code is right if no leaked name is used -----

  /** The code for an expression is right if no name is used that has leaked before. Where it ends memory holds the
      variables of the evaluation, in the slots that their names had at the beginning. */
  lemma CorrectIfUnused(e: Expr, s: GenState, f: Function, m: Machine, c: Config, env: Env, w: World, fuel: nat)
    returns (c2: Config)
    requires Ready(f, m, s, c, env, w) && LeaksUnused(e) && Gen(e, s).v.Some? && Contains(f, Gen(e, s).s)
    ensures var r := Gen(Nest(e), s);
      && SameResult(Gen(e, s), r) && SameScope(s, r.s)
      && Follows(f, m, s, c, c2, Eval(e, env, w, m, fuel), r, Assigned(Nest(e)), fuel)
  {
    hide Gen, Eval, Assigned, Matches, SlotsDistinct, Keeps, Reaches, Allocated;
    GenNest(e, s, s);
    NestDistinct(e);
    EvalNest(e, env, w, m, fuel);
    SameScopeAfter(Nest(e), s);
    assert Contains(f, Gen(Nest(e), s).s);
    c2 := CodegenCorrect(Nest(e), s, f, m, c, env, w, fuel);
  }

  /** A list that names x twice, and x after it. */
  function XAfterList(x: string, a: Double, b: Double, d: Double): Expr {
    Binary('+', VarIn([Binding(x, Some(Number(a))), Binding(x, Some(Number(b)))], Number(d)), Variable(x))
  }

  /** Otherwise the value can be wrong: the x after the list is meant to be the outer one, but the code
      reads the value that the first x of the list was given. */
  lemma LeakHidesOuter(x: string, a: Double, b: Double, d: Double, s: GenState, f: Function, m: Machine, c: Config,
          env: Env, w: World, fuel: nat)
    returns (c2: Config)
    requires Ready(f, m, s, c, env, w) && x in env
    requires var e := XAfterList(x, a, b, d);
      Gen(e, s).v.Some? && Contains(f, Gen(e, s).s)
    ensures !LeaksUnused(XAfterList(x, a, b, d))
    ensures Eval(XAfterList(x, a, b, d), env, w, m, fuel) == Done(m.fp.fadd(d, env[x]), env, w)
    ensures var r := Gen(XAfterList(x, a, b, d), s);
      Reaches(f.blocks, m, c, c2) && At(r.s, c2) && Value(r.v.value, c2) == Some(m.fp.fadd(d, a)) && c2.world == w
  {
    hide Contains, Matches, SlotsExist, SlotsDistinct, WellNumbered, Allocated, Reaches, Keeps, DeclareVar, GenVariable,
      GenBinary, Define, EvalBinary;
    ListLeaks(x, a, b, d);
    EvalXAfterList(x, a, b, d, env, w, m, fuel);
    hide LeaksUnused;
    var one := DeclareVar(s, x, Const(a));
    var two := DeclareVar(one, x, Const(b));
    var u := two.(named := one.named);
    GenXAfterList(x, a, b, d, s);
    var v := GenVariable(x, u);
    var r := GenBinary('+', Const(d), v.v.value, v.s);
    ListContained(f, x, a, b, d, s);
    var c1 := DeclareRuns(f, m, x, Const(a), a, s, c, env, w);
    var c3 := DeclareRuns(f, m, x, Const(b), b, one, c1, env[x := a], w);
    FirstBindingBack(f, m, x, Const(b), b, one, c1, c3, env[x := a], w);
    var c4 := VariableRuns(f, m, x, u, c3, env[x := a], w);
    ReachesTransitive(f, m, c, c1, c3);
    ReachesTransitive(f, m, c, c3, c4);
    ReadyAfter(f, m, Variable(x), u, c3, c4, {}, env[x := a], w, a, env[x := a], w);
    c2 := BinaryRuns(f, m, '+', Const(d), v.v.value, d, a, v.s, c4, env[x := a], w, fuel);
    PlusIs(m, d, a, env[x := a], w);
    ReachesTransitive(f, m, c, c4, c2);
  }

  lemma ListLeaks(x: string, a: Double, b: Double, d: Double)
    ensures !LeaksUnused(XAfterList(x, a, b, d))
  {
    var list := XAfterList(x, a, b, d).lhs;
    assert NamesFrom(list, 2) == {};
    assert NamesFrom(list, 1) == {x} by { assert list.vars[1..] == [list.vars[1]]; }
    assert {} + LeakOption(list.vars[0].init) + {x} == {x};
    assert x in Overwritten(list, 1, {x}) && Overwritten(list, 0, {}) == Overwritten(list, 1, {x});
    assert x in Leak(list);
  }

  lemma PlusIs(m: Machine, x: Double, y: Double, env: Env, w: World)
    ensures EvalBinary(m, '+', x, y, env, w) == Done(m.fp.fadd(x, y), env, w)
  {}

  lemma EvalXAfterList(x: string, a: Double, b: Double, d: Double, env: Env, w: World, m: Machine, fuel: nat)
    requires x in env
    ensures Eval(XAfterList(x, a, b, d), env, w, m, fuel) == Done(m.fp.fadd(d, env[x]), env, w)
  {
    var e := XAfterList(x, a, b, d).lhs;
    var one := env[x := a];
    var two := one[x := b];
    assert EvalVars(e, 2, two, w, m, fuel) == Done(d, two, w);
    assert EvalOption(e.vars[1].init, m.fp.zero, one, w, m, fuel) == Done(b, one, w);
    assert Restore(two, x, one) == one;
    assert EvalVars(e, 1, one, w, m, fuel) == Done(d, one, w);
    assert EvalOption(e.vars[0].init, m.fp.zero, env, w, m, fuel) == Done(a, env, w);
    assert Restore(one, x, env) == env;
    assert EvalVars(e, 0, env, w, m, fuel) == Done(d, env, w);
  }

  /** After the list the table has its first binding of x. */
  lemma GenXAfterList(x: string, a: Double, b: Double, d: Double, s: GenState)
    ensures var one := DeclareVar(s, x, Const(a));
      var u := DeclareVar(one, x, Const(b)).(named := one.named);
      var v := GenVariable(x, u);
      && Gen(XAfterList(x, a, b, d).lhs, s) == Result(Some(Const(d)), u) && v.v.Some?
      && Gen(XAfterList(x, a, b, d), s) == GenBinary('+', Const(d), v.v.value, v.s)
  {
    hide GenBinary, DeclareVar, RestoreNames;
    var e := XAfterList(x, a, b, d).lhs;
    var one := DeclareVar(s, x, Const(a));
    var two := DeclareVar(one, x, Const(b));
    assert GenVars(e, 2, two) == VarsResult(Some(Const(d)), two, []);
    assert GenOption(e.vars[1].init, one.zero, one) == Result(Some(Const(b)), one);
    assert GenVars(e, 1, one) == VarsResult(Some(Const(d)), two, [Lookup(one, x)]);
    assert GenOption(e.vars[0].init, s.zero, s) == Result(Some(Const(a)), s);
    assert GenVars(e, 0, s) == VarsResult(Some(Const(d)), two, [Lookup(s, x)] + [Lookup(one, x)]);
    DeclaredNames(s, x, Const(a));
    DeclaredNames(one, x, Const(b));
    RestoreTwice(two.named, e.vars, [Lookup(s, x)] + [Lookup(one, x)]);
    assert two.named[x := Lookup(s, x)][x := Lookup(one, x)] == one.named;
  }

  lemma DeclaredNames(s: GenState, x: string, v: Operand)
    ensures DeclareVar(s, x, v).named == s.named[x := Some(|s.allocas|)]
  {}

  lemma RestoreTwice(named: map<string, Option<nat>>, vars: seq<Binding>, olds: seq<Option<nat>>)
    requires |vars| == |olds| == 2
    ensures RestoreNames(named, vars, olds) == named[vars[0].name := olds[0]][vars[1].name := olds[1]]
  {
    var one := named[vars[0].name := olds[0]];
    var two := one[vars[1].name := olds[1]];
    assert RestoreNames(two, vars[1..][1..], olds[1..][1..]) == two;
    assert RestoreNames(one, vars[1..], olds[1..]) == two;
  }

  lemma ListContained(f: Function, x: string, a: Double, b: Double, d: Double, s: GenState)
    requires WellNumbered(s) && Contains(f, Gen(XAfterList(x, a, b, d), s).s)
    ensures var one := DeclareVar(s, x, Const(a));
      var two := DeclareVar(one, x, Const(b));
      && WellNumbered(one) && WellNumbered(two) && Contains(f, one) && Contains(f, two)
      && Contains(f, GenVariable(x, two.(named := one.named)).s)
  {
    hide DeclareVar, GenVariable, GenBinary, Gen;
    var one := DeclareVar(s, x, Const(a));
    var two := DeclareVar(one, x, Const(b));
    GenXAfterList(x, a, b, d, s);
    DeclareVarGrows(s, x, Const(a));
    DeclareVarGrows(one, x, Const(b));
    var u := two.(named := one.named);
    var v := GenVariable(x, u);
    GenVariableGrows(x, u);
    GenBinaryGrows('+', Const(d), v.v.value, v.s);
    ContainsEarlier(f, v.s, Gen(XAfterList(x, a, b, d), s).s);
    ContainsEarlier(f, u, v.s);
    assert Contains(f, two);
    ContainsEarlier(f, one, two);
  }

  /** The slot of the first x still holds its value. */
  lemma FirstBindingBack(f: Function, m: Machine, x: string, v: Operand, b: Double, s: GenState, c: Config, c2: Config,
          env: Env, w: World)
    requires Ready(f, m, s, c, env, w) && Ready(f, m, DeclareVar(s, x, v), c2, env[x := b], w)
    requires c2.mem == c.mem[|s.allocas| := Some(b)]
    ensures Ready(f, m, DeclareVar(s, x, v).(named := s.named), c2, env, w)
  {
    var u := DeclareVar(s, x, v).(named := s.named);
    forall y ensures Lookup(u, y) == Lookup(s, y) {}
  }
}
