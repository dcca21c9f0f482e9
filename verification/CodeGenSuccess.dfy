/** When code generation succeeds: exactly on expressions whose names are in scope and whose calls match a
    known function. */
module CodeGenSuccess {
  import opened Wrappers
  import opened KaleidoscopeAst
  import opened Ir
  import opened CodeGenSpec
  import opened CodeGenFrame
  import opened CodeGenScope

  ghost predicate ScopedOption(e: Option<Expr>, scope: set<string>, funcs: map<string, nat>)
    decreases e
  {
    e.Some? ==> Scoped(e.value, scope, funcs)
  }

  /** The scoping rule the code generator implements. Scopes are lexical, except that a name leaked by one
      subexpression is visible in the ones generated after it. */
  ghost predicate Scoped(e: Expr, scope: set<string>, funcs: map<string, nat>)
    decreases e
  {
    match e
    case Number(_) => true
    case Variable(x) => x in scope
    case Unary(op, a) => Scoped(a, scope, funcs) && UnaryName(op) in funcs
    case Binary(op, l, r) =>
      if op == '=' then l.Variable? && Scoped(r, scope, funcs) && l.name in scope + Leak(r)
      else Scoped(l, scope, funcs) && Scoped(r, scope + Leak(l), funcs) && (IsBuiltin(op) || BinaryName(op) in funcs)
    case Call(f, args) => f in funcs && funcs[f] == |args| && ScopedArgs(e, 0, scope, funcs)
    case If(c, t, f) =>
      && Scoped(c, scope, funcs)
      && Scoped(t, scope + Leak(c), funcs)
      && Scoped(f, scope + Leak(c) + Leak(t), funcs)
    case For(x, start, end, step, body) =>
      var inner := scope + Leak(start) + {x};
      && Scoped(start, scope, funcs)
      && Scoped(body, inner, funcs)
      && ScopedOption(step, inner + Leak(body), funcs)
      && Scoped(end, inner + Leak(body) + LeakOption(step), funcs)
    case VarIn(_, _) => ScopedVars(e, 0, scope, funcs)
  }

  ghost predicate ScopedArgs(e: Expr, i: nat, scope: set<string>, funcs: map<string, nat>)
    requires e.Call? && i <= |e.args|
    decreases e, |e.args| - i
  {
    i == |e.args| || (Scoped(e.args[i], scope, funcs) && ScopedArgs(e, i + 1, scope + Leak(e.args[i]), funcs))
  }

  ghost predicate ScopedVars(e: Expr, i: nat, scope: set<string>, funcs: map<string, nat>)
    requires e.VarIn? && i <= |e.vars|
    decreases e, |e.vars| - i
  {
    if i == |e.vars| then Scoped(e.body, scope, funcs) else
    && ScopedOption(e.vars[i].init, scope, funcs)
    && ScopedVars(e, i + 1, scope + LeakOption(e.vars[i].init) + {e.vars[i].name}, funcs)
  }

  /** The names bound to a slot. */
  ghost function Scope(s: GenState): set<string> {
    set x | x in s.named && s.named[x].Some?
  }

  lemma ScopeAfter(s: GenState, t: GenState, changed: set<string>)
    requires Rebound(s, t, changed)
    ensures Scope(t) == Scope(s) + changed
  {
    forall x ensures x in Scope(t) <==> x in Scope(s) + changed {
      assert Lookup(t, x).Some? <==> x in Scope(t);
      assert Lookup(s, x).Some? <==> x in Scope(s);
    }
  }

  lemma {:induction false} SucceedsIffScoped(e: Expr, s: GenState)
    requires WellNumbered(s) && SlotsExist(s)
    ensures Gen(e, s).v.Some? <==> Scoped(e, Scope(s), s.funcs)
    decreases e
  {
    match e
    case Number(d) =>
    case Variable(x) =>
    case Unary(op, a) =>
      GenGrows(a, s);
      SucceedsIffScoped(a, s);
    case Binary(op, l, r) =>
      if op == '=' {
        if l.Variable? {
          SucceedsIffScoped(r, s);
          AfterExpr(r, s);
        }
      } else {
        SucceedsIffScoped(l, s);
        if Gen(l, s).v.Some? {
          AfterExpr(l, s);
          GenGrows(r, Gen(l, s).s);
          SucceedsIffScoped(r, Gen(l, s).s);
        }
      }
    case Call(f, args) =>
      if f in s.funcs && s.funcs[f] == |args| {
        ArgsSucceedIffScoped(e, 0, s);
      }
    case If(c, t, f) => IfSucceedsIffScoped(e, s);
    case For(x, start, end, step, body) => ForSucceedsIffScoped(e, s);
    case VarIn(_, _) => VarsSucceedIffScoped(e, 0, s);
  }

  lemma AfterExpr(e: Expr, s: GenState)
    requires WellNumbered(s) && SlotsExist(s)
    ensures Grows(s, Gen(e, s).s)
    ensures Gen(e, s).v.Some? ==> SlotsExist(Gen(e, s).s) && Scope(Gen(e, s).s) == Scope(s) + Leak(e)
  {
    GenGrows(e, s);
    if Gen(e, s).v.Some? {
      NamesAfterGen(e, s);
      ScopeAfter(s, Gen(e, s).s, Leak(e));
    }
  }

  lemma AfterOption(e: Option<Expr>, default: Double, s: GenState)
    requires WellNumbered(s) && SlotsExist(s)
    ensures Grows(s, GenOption(e, default, s).s)
    ensures GenOption(e, default, s).v.Some? ==>
      SlotsExist(GenOption(e, default, s).s) && Scope(GenOption(e, default, s).s) == Scope(s) + LeakOption(e)
  {
    if e.Some? { AfterExpr(e.value, s); }
  }

  /** The table is all that counts for scoping. */
  lemma SameTable(s: GenState, t: GenState)
    requires SlotsExist(s) && t.named == s.named && |s.allocas| <= |t.allocas|
    ensures SlotsExist(t) && Scope(t) == Scope(s)
  {
    forall x ensures Lookup(t, x) == Lookup(s, x) {}
  }

  lemma {:induction false} ArgsSucceedIffScoped(e: Expr, i: nat, s: GenState)
    requires WellNumbered(s) && SlotsExist(s) && e.Call? && i <= |e.args|
    ensures GenArgs(e, i, s).vs.Some? <==> ScopedArgs(e, i, Scope(s), s.funcs)
    ensures Grows(s, GenArgs(e, i, s).s)
    decreases e, |e.args| - i
  {
    GenArgsGrows(e, i, s);
    if i < |e.args| {
      SucceedsIffScoped(e.args[i], s);
      AfterExpr(e.args[i], s);
      if Gen(e.args[i], s).v.Some? {
        ArgsSucceedIffScoped(e, i + 1, Gen(e.args[i], s).s);
      }
    }
  }

  lemma {:induction false} IfSucceedsIffScoped(e: Expr, s: GenState)
    requires WellNumbered(s) && SlotsExist(s) && e.If?
    ensures Gen(e, s).v.Some? <==> Scoped(e, Scope(s), s.funcs)
    decreases e, 0
  {
    hide SlotsExist, Scope, SameBlock, IsPrefix, IfHead, IfElse, Emit;
    SucceedsIffScoped(e.cond, s);
    AfterExpr(e.cond, s);
    var rc := Gen(e.cond, s);
    if rc.v.None? { return; }
    var h := IfHead(rc.s, rc.v.value);
    HeadTable(rc.s, rc.v.value);
    SameTable(rc.s, h);
    ThenGrows(e, rc.s, rc.v.value);
    SucceedsIffScoped(e.thn, h);
    AfterExpr(e.thn, h);
    var rt := Gen(e.thn, h);
    if rt.v.None? { return; }
    var m := IfElse(rt.s, rc.s.nextBlock);
    ElseGrows(e, rc.s, rt.s);
    ElseTable(rt.s, rc.s.nextBlock);
    SameTable(rt.s, m);
    SucceedsIffScoped(e.els, m);
  }

  lemma HeadTable(s: GenState, v: Operand)
    ensures IfHead(s, v).named == s.named && IfHead(s, v).allocas == s.allocas && IfHead(s, v).funcs == s.funcs
  {}

  lemma ElseTable(s: GenState, n: nat)
    ensures IfElse(s, n).named == s.named && IfElse(s, n).allocas == s.allocas && IfElse(s, n).funcs == s.funcs
  {}

  lemma {:induction false} ForSucceedsIffScoped(e: Expr, s: GenState)
    requires WellNumbered(s) && SlotsExist(s) && e.For?
    ensures Gen(e, s).v.Some? <==> Scoped(e, Scope(s), s.funcs)
    decreases e, 0
  {
    var slot := |s.allocas|;
    var a := NewAlloca(s, e.varName);
    SameTable(s, a);
    StartGrows(e, s);
    SucceedsIffScoped(e.start, a);
    AfterExpr(e.start, a);
    var rs := Gen(e.start, a);
    if rs.v.None? { return; }
    var h := ForHead(rs.s, slot, rs.v.value);
    SameTable(rs.s, h);
    BindGrows(rs.s, e.varName, slot, rs.v.value);
    var b := Bind(h, e.varName, slot);
    ScopeAfterBind(h, e.varName, slot);
    SucceedsIffScoped(e.body, b);
    AfterExpr(e.body, b);
    var rb := Gen(e.body, b);
    if rb.v.None? { return; }
    OptionSucceedsIffScoped(e.step, s.one, rb.s);
    AfterOption(e.step, s.one, rb.s);
    var rp := GenOption(e.step, s.one, rb.s);
    if rp.v.None? { return; }
    SucceedsIffScoped(e.end, rp.s);
  }

  lemma ScopeAfterBind(s: GenState, x: string, slot: nat)
    requires SlotsExist(s) && slot < |s.allocas|
    ensures SlotsExist(Bind(s, x, slot)) && Scope(Bind(s, x, slot)) == Scope(s) + {x}
  {
    NamesAfterBind(s, x, slot);
  }

  lemma {:induction false} OptionSucceedsIffScoped(e: Option<Expr>, default: Double, s: GenState)
    requires WellNumbered(s) && SlotsExist(s)
    ensures GenOption(e, default, s).v.Some? <==> ScopedOption(e, Scope(s), s.funcs)
    decreases e
  {
    if e.Some? { SucceedsIffScoped(e.value, s); }
  }

  lemma {:induction false} VarsSucceedIffScoped(e: Expr, i: nat, s: GenState)
    requires WellNumbered(s) && SlotsExist(s) && e.VarIn? && i <= |e.vars|
    ensures GenVars(e, i, s).v.Some? <==> ScopedVars(e, i, Scope(s), s.funcs)
    decreases e, |e.vars| - i
  {
    if i == |e.vars| {
      SucceedsIffScoped(e.body, s);
    } else {
      var b := e.vars[i];
      OptionSucceedsIffScoped(b.init, s.zero, s);
      AfterOption(b.init, s.zero, s);
      var r := GenOption(b.init, s.zero, s);
      if r.v.None? { return; }
      var d := DeclareVar(r.s, b.name, r.v.value);
      DeclareVarGrows(r.s, b.name, r.v.value);
      var t := Emit(NewAlloca(r.s, b.name), Store(r.v.value, |r.s.allocas|));
      SameTable(r.s, t);
      ScopeAfterBind(t, b.name, |r.s.allocas|);
      VarsSucceedIffScoped(e, i + 1, d);
    }
  }

  /** Plain lexical scoping: every use of a name lies inside a binder of that name. */
  ghost predicate LexicallyScoped(e: Expr, scope: set<string>, funcs: map<string, nat>)
    decreases e
  {
    match e
    case Number(_) => true
    case Variable(x) => x in scope
    case Unary(op, a) => LexicallyScoped(a, scope, funcs) && UnaryName(op) in funcs
    case Binary(op, l, r) =>
      && LexicallyScoped(r, scope, funcs)
      && (if op == '=' then l.Variable? && l.name in scope
          else LexicallyScoped(l, scope, funcs) && (IsBuiltin(op) || BinaryName(op) in funcs))
    case Call(f, args) =>
      f in funcs && funcs[f] == |args| && forall i :: 0 <= i < |args| ==> LexicallyScoped(args[i], scope, funcs)
    case If(c, t, f) =>
      LexicallyScoped(c, scope, funcs) && LexicallyScoped(t, scope, funcs) && LexicallyScoped(f, scope, funcs)
    case For(x, start, end, step, body) =>
      && LexicallyScoped(start, scope, funcs)
      && LexicallyScoped(body, scope + {x}, funcs)
      && (step.Some? ==> LexicallyScoped(step.value, scope + {x}, funcs))
      && LexicallyScoped(end, scope + {x}, funcs)
    case VarIn(vars, body) =>
      && LexicallyScoped(body, scope + BoundNames(vars), funcs)
      && forall i :: 0 <= i < |vars| && vars[i].init.Some? ==>
           LexicallyScoped(vars[i].init.value, scope + BoundNames(vars[..i]), funcs)
  }

  /** An initializer sees the names listed before its own. */
  ghost predicate LexicalInit(e: Expr, i: nat, scope: set<string>, funcs: map<string, nat>)
    requires e.VarIn? && i < |e.vars|
  {
    e.vars[i].init.Some? ==> LexicallyScoped(e.vars[i].init.value, scope + BoundNames(e.vars[..i]), funcs)
  }

  lemma {:induction false} ScopedIsLexical(e: Expr, scope: set<string>, funcs: map<string, nat>)
    requires DistinctBinders(e)
    ensures Scoped(e, scope, funcs) <==> LexicallyScoped(e, scope, funcs)
    decreases e
  {
    match e
    case Number(_) =>
    case Variable(_) =>
    case Unary(_, a) => ScopedIsLexical(a, scope, funcs);
    case Binary(op, l, r) =>
      DistinctBindersNeverLeak(l);
      DistinctBindersNeverLeak(r);
      ScopedIsLexical(l, scope, funcs);
      ScopedIsLexical(r, scope, funcs);
      assert scope + {} == scope;
    case Call(_, args) => ScopedArgsIsLexical(e, 0, scope, funcs);
    case If(c, t, f) =>
      DistinctBindersNeverLeak(c);
      DistinctBindersNeverLeak(t);
      ScopedIsLexical(c, scope, funcs);
      ScopedIsLexical(t, scope, funcs);
      ScopedIsLexical(f, scope, funcs);
      assert scope + {} == scope && scope + {} + {} == scope;
    case For(x, start, end, step, body) =>
      DistinctBindersNeverLeak(start);
      DistinctBindersNeverLeak(body);
      ScopedIsLexical(start, scope, funcs);
      var inner := scope + {x};
      assert scope + {} + {x} == inner && inner + {} == inner && inner + {} + {} == inner;
      ScopedIsLexical(body, inner, funcs);
      if step.Some? {
        DistinctBindersNeverLeak(step.value);
        ScopedIsLexical(step.value, inner, funcs);
      }
      ScopedIsLexical(end, inner, funcs);
    case VarIn(_, _) => ScopedVarInIsLexical(e, scope, funcs);
  }

  lemma {:induction false} ScopedVarInIsLexical(e: Expr, scope: set<string>, funcs: map<string, nat>)
    requires DistinctBinders(e) && e.VarIn?
    ensures Scoped(e, scope, funcs) <==> LexicallyScoped(e, scope, funcs)
    decreases e, |e.vars| + 1
  {
    assert e.vars[..0] == [];
    assert scope + BoundNames(e.vars[..0]) == scope;
    ScopedVarsIsLexical(e, 0, scope, scope, funcs);
    if forall k :: 0 <= k < |e.vars| ==> LexicalInit(e, k, scope, funcs) {
      forall i | 0 <= i < |e.vars| && e.vars[i].init.Some?
        ensures LexicallyScoped(e.vars[i].init.value, scope + BoundNames(e.vars[..i]), funcs)
      {
        assert LexicalInit(e, i, scope, funcs);
      }
    }
    if LexicallyScoped(e, scope, funcs) {
      forall k | 0 <= k < |e.vars| ensures LexicalInit(e, k, scope, funcs) {}
    }
  }

  lemma {:induction false} ScopedArgsIsLexical(e: Expr, i: nat, scope: set<string>, funcs: map<string, nat>)
    requires e.Call? && i <= |e.args| && DistinctBinders(e)
    ensures ScopedArgs(e, i, scope, funcs) <==>
      forall k :: i <= k < |e.args| ==> LexicallyScoped(e.args[k], scope, funcs)
    decreases e, |e.args| - i
  {
    if i < |e.args| {
      DistinctBindersNeverLeak(e.args[i]);
      ScopedIsLexical(e.args[i], scope, funcs);
      assert scope + {} == scope;
      ScopedArgsIsLexical(e, i + 1, scope, funcs);
    }
  }

  lemma {:induction false} ScopedVarsIsLexical(e: Expr, i: nat, scope: set<string>, here: set<string>,
          funcs: map<string, nat>)
    requires e.VarIn? && i <= |e.vars| && DistinctBinders(e)
    requires here == scope + BoundNames(e.vars[..i])
    ensures ScopedVars(e, i, here, funcs) <==>
      && LexicallyScoped(e.body, scope + BoundNames(e.vars), funcs)
      && forall k :: i <= k < |e.vars| ==> LexicalInit(e, k, scope, funcs)
    decreases e, |e.vars| - i
  {
    if i == |e.vars| {
      assert e.vars[..i] == e.vars;
      ScopedIsLexical(e.body, here, funcs);
    } else {
      var next := here + LeakOption(e.vars[i].init) + {e.vars[i].name};
      InitIsLexical(e, i, scope, here, funcs);
      ScopedVarsIsLexical(e, i + 1, scope, next, funcs);
      assert ScopedVars(e, i, here, funcs) <==> LexicalInit(e, i, scope, funcs) && ScopedVars(e, i + 1, next, funcs);
    }
  }

  lemma {:induction false} InitIsLexical(e: Expr, i: nat, scope: set<string>, here: set<string>, funcs: map<string,
          nat>)
    requires e.VarIn? && i < |e.vars| && DistinctBinders(e)
    requires here == scope + BoundNames(e.vars[..i])
    ensures ScopedOption(e.vars[i].init, here, funcs) <==> LexicalInit(e, i, scope, funcs)
    ensures here + LeakOption(e.vars[i].init) + {e.vars[i].name} == scope + BoundNames(e.vars[..i + 1])
    decreases e, 0, 0
  {
    var b := e.vars[i];
    if b.init.Some? {
      DistinctBindersNeverLeak(b.init.value);
      ScopedIsLexical(b.init.value, here, funcs);
    }
  }

  /** Code generation succeeds exactly on expressions that are lexically well scoped and call known
      functions with the right number of arguments, provided no var list repeats a name. */
  lemma CodegenSucceedsExactly(e: Expr, s: GenState)
    requires WellNumbered(s) && SlotsExist(s) && DistinctBinders(e)
    ensures Gen(e, s).v.Some? <==> LexicallyScoped(e, Scope(s), s.funcs)
  {
    SucceedsIffScoped(e, s);
    ScopedIsLexical(e, Scope(s), s.funcs);
  }

  /** With a repeated name it can accept what is not in scope: in (var x, x in 0) + x the last x is free. */
  lemma RepeatedNameEscapes(s: GenState, x: string, d: Double)
    requires WellNumbered(s) && SlotsExist(s) && x !in Scope(s)
    ensures var list := VarIn([Binding(x, None), Binding(x, None)], Number(d));
      var e := Binary('+', list, Variable(x));
      && !LexicallyScoped(e, Scope(s), s.funcs)
      && Gen(e, s).v.Some?
      && Lookup(Gen(list, s).s, x) != Lookup(s, x)
  {
    hide Leak, Gen, WellNumbered, SlotsExist;
    var list := VarIn([Binding(x, None), Binding(x, None)], Number(d));
    RepeatedNameLeaks(x, d);
    RepeatedNameScoped(x, d, Scope(s), s.funcs);
    SucceedsIffScoped(Binary('+', list, Variable(x)), s);
    SucceedsIffScoped(list, s);
    NamesAfterGen(list, s);
    assert Lookup(s, x).None?;
  }

  lemma RepeatedNameLeaks(x: string, d: Double)
    ensures x in Leak(VarIn([Binding(x, None), Binding(x, None)], Number(d)))
  {
    var list := VarIn([Binding(x, None), Binding(x, None)], Number(d));
    assert NamesFrom(list, 2) == {};
    assert NamesFrom(list, 1) == {x} by { assert list.vars[1..] == [Binding(x, None)]; }
    assert x in Overwritten(list, 1, {x});
    assert {} + LeakOption(None) + {x} == {x};
    assert Overwritten(list, 0, {}) == Overwritten(list, 1, {x});
  }

  lemma RepeatedNameScoped(x: string, d: Double, names: set<string>, funcs: map<string, nat>)
    ensures Scoped(VarIn([Binding(x, None), Binding(x, None)], Number(d)), names, funcs)
  {
    var list := VarIn([Binding(x, None), Binding(x, None)], Number(d));
    assert names + LeakOption(None) + {x} == names + {x};
    assert ScopedVars(list, 2, names + {x} + LeakOption(None) + {x}, funcs);
    assert ScopedVars(list, 1, names + {x}, funcs);
  }
}
