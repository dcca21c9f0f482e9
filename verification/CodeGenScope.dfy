/** The name table. Code generation is meant to leave it as it was; the var list restores its names first
    to last, which does that only as long as no name is listed twice. Leak says exactly what goes wrong. */
module CodeGenScope {
  import opened Wrappers
  import opened KaleidoscopeAst
  import opened Ir
  import opened CodeGenSpec
  import opened CodeGenFrame

  ghost function NamesFrom(e: Expr, i: nat): set<string>
    requires e.VarIn? && i <= |e.vars|
  {
    set b | b in e.vars[i..] :: b.name
  }

  ghost function LeakOption(e: Option<Expr>): set<string>
    decreases e
  {
    if e.Some? then Leak(e.value) else {}
  }

  /** The names that are bound to a slot of e's own when the code for e has been generated. */
  ghost function Leak(e: Expr): set<string>
    decreases e
  {
    match e
    case Number(_) => {}
    case Variable(_) => {}
    case Unary(_, a) => Leak(a)
    case Binary(op, l, r) => if op == '=' then Leak(r) else Leak(l) + Leak(r)
    case Call(_, _) => LeakArgs(e, 0)
    case If(c, t, f) => Leak(c) + Leak(t) + Leak(f)
    case For(x, start, end, step, body) =>
      Leak(start) + (Leak(body) + LeakOption(step) + Leak(end) - {x})
    case VarIn(_, _) => (Dirty(e, 0, {}) - NamesFrom(e, 0)) + Overwritten(e, 0, {})
  }

  ghost function LeakArgs(e: Expr, i: nat): set<string>
    requires e.Call? && i <= |e.args|
    decreases e, |e.args| - i
  {
    if i == |e.args| then {} else Leak(e.args[i]) + LeakArgs(e, i + 1)
  }

  /** The names bound anew after e.vars[i..] and the body, when those in dirty already were. */
  ghost function Dirty(e: Expr, i: nat, dirty: set<string>): set<string>
    requires e.VarIn? && i <= |e.vars|
    decreases e, |e.vars| - i
  {
    if i == |e.vars| then dirty + Leak(e.body)
    else Dirty(e, i + 1, dirty + LeakOption(e.vars[i].init) + {e.vars[i].name})
  }

  /** The names of e.vars[i..] whose last binding replaces one made inside e. */
  ghost function Overwritten(e: Expr, i: nat, dirty: set<string>): set<string>
    requires e.VarIn? && i <= |e.vars|
    decreases e, |e.vars| - i
  {
    if i == |e.vars| then {} else
    var x := e.vars[i].name;
    var before := dirty + LeakOption(e.vars[i].init);
    var rest := Overwritten(e, i + 1, before + {x});
    if x !in NamesFrom(e, i + 1) && x in before then rest + {x} else rest
  }

  /** No var list anywhere in e names a variable twice. */
  predicate DistinctBinders(e: Expr)
    decreases e
  {
    match e
    case Number(_) => true
    case Variable(_) => true
    case Unary(_, a) => DistinctBinders(a)
    case Binary(_, l, r) => DistinctBinders(l) && DistinctBinders(r)
    case Call(_, args) => forall i :: 0 <= i < |args| ==> DistinctBinders(args[i])
    case If(c, t, f) => DistinctBinders(c) && DistinctBinders(t) && DistinctBinders(f)
    case For(_, start, end, step, body) =>
      && DistinctBinders(start) && DistinctBinders(end) && DistinctBinders(body)
      && (step.Some? ==> DistinctBinders(step.value))
    case VarIn(vars, body) =>
      && DistinctBinders(body)
      && (forall i :: 0 <= i < |vars| && vars[i].init.Some? ==> DistinctBinders(vars[i].init.value))
      && (forall i, j :: 0 <= i < j < |vars| ==> vars[i].name != vars[j].name)
  }

  lemma {:induction false} DistinctBindersNeverLeak(e: Expr)
    requires DistinctBinders(e)
    ensures Leak(e) == {}
    decreases e
  {
    match e
    case Number(_) =>
    case Variable(_) =>
    case Unary(_, a) => DistinctBindersNeverLeak(a);
    case Binary(_, l, r) => DistinctBindersNeverLeak(l); DistinctBindersNeverLeak(r);
    case Call(_, args) => ArgsNeverLeak(e, 0);
    case If(c, t, f) => DistinctBindersNeverLeak(c); DistinctBindersNeverLeak(t); DistinctBindersNeverLeak(f);
    case For(_, start, end, step, body) =>
      DistinctBindersNeverLeak(start);
      DistinctBindersNeverLeak(end);
      DistinctBindersNeverLeak(body);
      if step.Some? { DistinctBindersNeverLeak(step.value); }
    case VarIn(_, _) => VarsNeverLeak(e, 0, {});
  }

  lemma {:induction false} ArgsNeverLeak(e: Expr, i: nat)
    requires e.Call? && i <= |e.args| && DistinctBinders(e)
    ensures LeakArgs(e, i) == {}
    decreases e, |e.args| - i
  {
    if i < |e.args| {
      DistinctBindersNeverLeak(e.args[i]);
      ArgsNeverLeak(e, i + 1);
    }
  }

  lemma {:induction false} VarsNeverLeak(e: Expr, i: nat, dirty: set<string>)
    requires e.VarIn? && i <= |e.vars| && DistinctBinders(e)
    requires dirty !! NamesFrom(e, i)
    ensures Dirty(e, i, dirty) == dirty + NamesFrom(e, i) && Overwritten(e, i, dirty) == {}
    decreases e, |e.vars| - i
  {
    if i == |e.vars| {
      DistinctBindersNeverLeak(e.body);
    } else {
      var b := e.vars[i];
      if b.init.Some? { DistinctBindersNeverLeak(b.init.value); }
      assert e.vars[i..] == [b] + e.vars[i + 1..];
      assert NamesFrom(e, i) == {b.name} + NamesFrom(e, i + 1);
      forall c | c in e.vars[i + 1..] ensures c.name != b.name {
        var k :| 0 <= k < |e.vars[i + 1..]| && e.vars[i + 1..][k] == c;
        assert e.vars[i + 1 + k] == c;
      }
      assert dirty + LeakOption(b.init) == dirty;
      VarsNeverLeak(e, i + 1, dirty + {b.name});
    }
  }

  /** Bound names have slots that exist. */
  ghost predicate SlotsExist(s: GenState) {
    forall x :: Lookup(s, x).Some? ==> Lookup(s, x).value < |s.allocas|
  }

  /** In t, the names in changed are bound to slots younger than s, and every other name is as in s. */
  ghost predicate Rebound(s: GenState, t: GenState, changed: set<string>) {
    && |s.allocas| <= |t.allocas|
    && SlotsExist(t)
    && forall x :: if x in changed then Lookup(t, x).Some? && |s.allocas| <= Lookup(t, x).value
                   else Lookup(t, x) == Lookup(s, x)
  }

  lemma ReboundTransitive(a: GenState, b: GenState, c: GenState, p: set<string>, q: set<string>)
    requires Rebound(a, b, p) && Rebound(b, c, q)
    ensures Rebound(a, c, p + q)
  {
    forall x ensures if x in p + q then Lookup(c, x).Some? && |a.allocas| <= Lookup(c, x).value
                     else Lookup(c, x) == Lookup(a, x)
    {
      assert Lookup(b, x) == Lookup(b, x);
    }
  }

  /** Code that goes on from a with the table as it is. */
  lemma ReboundSameTable(a: GenState, b: GenState, c: GenState, p: set<string>)
    requires Rebound(a, b, p) && c.named == b.named && |b.allocas| <= |c.allocas|
    ensures Rebound(a, c, p)
  {
    ReboundSameLookups(a, b, c, p);
  }

  lemma ReboundSameLookups(a: GenState, b: GenState, c: GenState, p: set<string>)
    requires Rebound(a, b, p) && |b.allocas| <= |c.allocas| && forall x :: Lookup(c, x) == Lookup(b, x)
    ensures Rebound(a, c, p)
  {}

  lemma {:induction false} LookupAfterRestore(s: GenState, vars: seq<Binding>, olds: seq<Option<nat>>, x: string)
    requires |vars| == |olds|
    ensures Lookup(s.(named := RestoreNames(s.named, vars, olds)), x)
         == AfterRestore(Lookup(s, x), vars, olds, x)
    decreases |vars|
  {
    if vars != [] {
      var t := s.(named := s.named[vars[0].name := olds[0]]);
      LookupAfterRestore(t, vars[1..], olds[1..], x);
    }
  }

  /** What a name that stood for look stands for when the list has been restored. */
  ghost function AfterRestore(look: Option<nat>, vars: seq<Binding>, olds: seq<Option<nat>>, x: string): Option<nat>
    requires |vars| == |olds|
    decreases |vars|
  {
    if vars == [] then look
    else AfterRestore(if vars[0].name == x then olds[0] else look, vars[1..], olds[1..], x)
  }

  lemma {:induction false} NamesAfterGen(e: Expr, s: GenState)
    requires WellNumbered(s) && SlotsExist(s) && Gen(e, s).v.Some?
    ensures Rebound(s, Gen(e, s).s, Leak(e))
    decreases e
  {
    hide Grows, WellNumbered, Emit, Rebound;
    ReboundSelf(s);
    match e
    case Number(d) =>
    case Variable(x) =>
      forall y ensures Lookup(Gen(e, s).s, y) == Lookup(s, y) { SameLookups(x, s, y); }
      SameLookups(x, s, x);
      ReboundSameLookups(s, s, Gen(e, s).s, {});
    case Unary(op, a) =>
      NamesAfterGen(a, s);
      CallKeepsTable(UnaryName(op), [Gen(a, s).v.value], Gen(a, s).s);
      ReboundSameTable(s, Gen(a, s).s, Gen(e, s).s, Leak(a));
    case Binary(op, l, r) => NamesAfterBinary(e, s);
    case Call(f, args) =>
      NamesAfterArgs(e, 0, s);
      var r := GenArgs(e, 0, s);
      CallKeepsTable(f, r.vs.value, r.s);
      ReboundSameTable(s, r.s, Gen(e, s).s, Leak(e));
    case If(_, _, _) => NamesAfterIf(e, s);
    case For(_, _, _, _, _) => NamesAfterFor(e, s);
    case VarIn(vars, _) => NamesAfterVarIn(e, s);
  }

  lemma ReboundSelf(s: GenState)
    requires SlotsExist(s)
    ensures Rebound(s, s, {})
  {}

  lemma SameLookups(x: string, s: GenState, y: string)
    ensures Lookup(GenVariable(x, s).s, y) == Lookup(s, y) && GenVariable(x, s).s.allocas == s.allocas
  {}

  lemma CallKeepsTable(f: string, vs: seq<Operand>, s: GenState)
    ensures GenCall(f, vs, s).s.named == s.named && GenCall(f, vs, s).s.allocas == s.allocas
  {}

  lemma OperatorKeepsTable(op: char, a: Operand, b: Operand, s: GenState)
    ensures GenBinary(op, a, b, s).s.named == s.named && GenBinary(op, a, b, s).s.allocas == s.allocas
  {
    hide Emit;
    forall t: GenState, i
      ensures Emit(t, i).named == t.named && Emit(t, i).allocas == t.allocas { EmitKeepsTable(t, i); }
  }

  lemma EmitKeepsTable(s: GenState, i: Instr)
    ensures Emit(s, i).named == s.named && Emit(s, i).allocas == s.allocas
  {}

  lemma {:induction false} NamesAfterBinary(e: Expr, s: GenState)
    requires WellNumbered(s) && SlotsExist(s) && e.Binary? && Gen(e, s).v.Some?
    ensures Rebound(s, Gen(e, s).s, Leak(e))
    decreases e, 0
  {
    hide WellNumbered, GenBinary, GenVariable;
    if e.op == '=' {
      var r := Gen(e.rhs, s);
      NamesAfterGen(e.rhs, s);
      hide Rebound;
      forall y ensures Lookup(Gen(e, s).s, y) == Lookup(r.s, y) {}
      ReboundSameLookups(s, r.s, Gen(e, s).s, Leak(e));
    } else {
      var a := Gen(e.lhs, s);
      var b := Gen(e.rhs, a.s);
      NamesAfterGen(e.lhs, s);
      assert SlotsExist(a.s);
      GenGrows(e.lhs, s);
      hide Grows, Rebound;
      NamesAfterGen(e.rhs, a.s);
      ReboundTransitive(s, a.s, b.s, Leak(e.lhs), Leak(e.rhs));
      OperatorKeepsTable(e.op, a.v.value, b.v.value, b.s);
      ReboundSameTable(s, b.s, Gen(e, s).s, Leak(e));
    }
  }

  lemma {:induction false} NamesAfterOption(e: Option<Expr>, default: Double, s: GenState)
    requires WellNumbered(s) && SlotsExist(s) && GenOption(e, default, s).v.Some?
    ensures Rebound(s, GenOption(e, default, s).s, LeakOption(e))
    decreases e
  {
    if e.Some? { NamesAfterGen(e.value, s); }
  }

  lemma {:induction false} NamesAfterArgs(e: Expr, i: nat, s: GenState)
    requires WellNumbered(s) && SlotsExist(s) && e.Call? && i <= |e.args| && GenArgs(e, i, s).vs.Some?
    ensures Rebound(s, GenArgs(e, i, s).s, LeakArgs(e, i))
    decreases e, |e.args| - i
  {
    if i < |e.args| {
      var a := Gen(e.args[i], s);
      GenGrows(e.args[i], s);
      NamesAfterGen(e.args[i], s);
      NamesAfterArgs(e, i + 1, a.s);
      ReboundTransitive(s, a.s, GenArgs(e, i, s).s, Leak(e.args[i]), LeakArgs(e, i + 1));
    }
  }

  lemma {:induction false} NamesAfterIf(e: Expr, s: GenState)
    requires WellNumbered(s) && SlotsExist(s) && e.If? && Gen(e, s).v.Some?
    ensures Rebound(s, Gen(e, s).s, Leak(e))
    decreases e, 0
  {
    var rc, h, rt, m, rf := IfParts(e, s);
    NamesAfterGen(e.cond, s);
    ReboundSameTable(s, rc.s, h, Leak(e.cond));
    NamesAfterGen(e.thn, h);
    ReboundTransitive(s, h, rt.s, Leak(e.cond), Leak(e.thn));
    ReboundSameTable(s, rt.s, m, Leak(e.cond) + Leak(e.thn));
    NamesAfterGen(e.els, m);
    ReboundTransitive(s, m, rf.s, Leak(e.cond) + Leak(e.thn), Leak(e.els));
    ReboundSameTable(s, rf.s, Gen(e, s).s, Leak(e));
  }

  lemma {:induction false} NamesAfterFor(e: Expr, s: GenState)
    requires WellNumbered(s) && SlotsExist(s) && e.For? && Gen(e, s).v.Some?
    ensures Rebound(s, Gen(e, s).s, Leak(e))
    decreases e, 0
  {
    var a, rs, h, b, rb, rp, re := ForParts(e, s);
    ReboundSameTable(s, s, a, {});
    NamesAfterGen(e.start, a);
    ReboundTransitive(s, a, rs.s, {}, Leak(e.start));
    ReboundSameTable(s, rs.s, h, Leak(e.start));
    NamesAfterBind(h, e.varName, |s.allocas|);
    NamesAfterGen(e.body, b);
    NamesAfterOption(e.step, s.one, rb.s);
    ReboundTransitive(b, rb.s, rp.s, Leak(e.body), LeakOption(e.step));
    NamesAfterGen(e.end, rp.s);
    ReboundTransitive(b, rp.s, re.s, Leak(e.body) + LeakOption(e.step), Leak(e.end));
    var tail := ForTail(re.s, |s.allocas|, rp.v.value, re.v.value, h.cur);
    ReboundSameTable(b, re.s, tail, Leak(e.body) + LeakOption(e.step) + Leak(e.end));
    NamesAfterUnbind(s, h, e.varName, |s.allocas|, tail, Leak(e.start),
      Leak(e.body) + LeakOption(e.step) + Leak(e.end));
  }

  /** The end of a loop's scope: only what leaked around the variable is left. */
  lemma NamesAfterUnbind(s: GenState, h: GenState, x: string, slot: nat, t: GenState, p: set<string>, q: set<string>)
    requires Rebound(s, h, p) && slot < |h.allocas| && Rebound(Bind(h, x, slot), t, q)
    ensures Rebound(s, Unbind(t, x, Lookup(h, x)), p + (q - {x}))
  {
    var u := Unbind(t, x, Lookup(h, x));
    forall y ensures Lookup(u, y) == if y == x then Lookup(h, x) else Lookup(t, y) {}
    forall y ensures Lookup(Bind(h, x, slot), y) == if y == x then Some(slot) else Lookup(h, y) {}
  }

  lemma NamesAfterBind(s: GenState, x: string, slot: nat)
    requires SlotsExist(s) && slot < |s.allocas|
    ensures SlotsExist(Bind(s, x, slot))
    ensures forall y :: Lookup(Bind(s, x, slot), y) == if y == x then Some(slot) else Lookup(s, y)
  {
    forall y ensures Lookup(Bind(s, x, slot), y) == if y == x then Some(slot) else Lookup(s, y) {}
  }

  lemma {:induction false} NamesAfterVarIn(e: Expr, s: GenState)
    requires WellNumbered(s) && SlotsExist(s) && e.VarIn? && Gen(e, s).v.Some?
    ensures Rebound(s, Gen(e, s).s, Leak(e))
    decreases e, |e.vars| + 1
  {
    var r := GenVars(e, 0, s);
    assert e.vars[0..] == e.vars;
    NamesAfterVars(e, 0, s, s, {});
    GenVarsGrows(e, 0, s);
    var t := Gen(e, s).s;
    forall x ensures Lookup(t, x) == AfterRestore(Lookup(r.s, x), e.vars, r.olds, x) {
      LookupAfterRestore(r.s, e.vars, r.olds, x);
    }
    forall x ensures Lookup(t, x).Some? ==> Lookup(t, x).value < |t.allocas|
      ensures if x in Leak(e) then Lookup(t, x).Some? && |s.allocas| <= Lookup(t, x).value
              else Lookup(t, x) == Lookup(s, x)
    {
      assert OldsExact(s, e, 0, r, {}, x, Lookup(r.s, x));
    }
  }

  /** The bindings made by e.vars[i..], and the ones they will be restored to, seen from the state origin
      in which the list began. */
  lemma {:induction false} NamesAfterVars(e: Expr, i: nat, origin: GenState, s: GenState, dirty: set<string>)
    requires WellNumbered(s) && e.VarIn? && i <= |e.vars| && GenVars(e, i, s).v.Some?
    requires SlotsExist(s) && SlotsExist(origin) && Rebound(origin, s, dirty)
    ensures Rebound(origin, GenVars(e, i, s).s, Dirty(e, i, dirty))
    ensures forall x, look :: OldsExact(origin, e, i, GenVars(e, i, s), dirty, x, look)
    decreases e, |e.vars| - i
  {
    if i == |e.vars| {
      NamesAfterGen(e.body, s);
      ReboundTransitive(origin, s, Gen(e.body, s).s, dirty, Leak(e.body));
    } else {
      var b := e.vars[i];
      var r := GenOption(b.init, s.zero, s);
      GenOptionGrows(b.init, s.zero, s);
      NamesAfterOption(b.init, s.zero, s);
      var before := dirty + LeakOption(b.init);
      ReboundTransitive(origin, s, r.s, dirty, LeakOption(b.init));
      var d := DeclareVar(r.s, b.name, r.v.value);
      DeclareVarGrows(r.s, b.name, r.v.value);
      ReboundDeclared(origin, r.s, b.name, r.v.value, before);
      assert WellNumbered(d) && |r.s.allocas| <= |d.allocas|;
      hide DeclareVar, WellNumbered, Rebound, OldsExact, Lookup;
      NamesAfterVars(e, i + 1, origin, d, before + {b.name});
      var rest := GenVars(e, i + 1, d);
      GenVarsGrows(e, i + 1, d);
      assert |r.s.allocas| <= |rest.s.allocas|;
      hide Grows;
      forall x, look ensures OldsExact(origin, e, i, GenVars(e, i, s), dirty, x, look) {
        OldsExactStep(origin, e, i, r.s, rest, dirty, x, look);
      }
    }
  }

  /** A declaration binds its name to a new slot. */
  lemma ReboundDeclared(origin: GenState, s: GenState, x: string, v: Operand, before: set<string>)
    requires Rebound(origin, s, before)
    ensures Rebound(origin, DeclareVar(s, x, v), before + {x}) && SlotsExist(DeclareVar(s, x, v)) && SlotsExist(s)
  {
    var d := DeclareVar(s, x, v);
    assert forall y :: Lookup(d, y) == if y == x then Some(|s.allocas|) else Lookup(s, y);
  }

  /** Restoring e.vars[i..] gives x a binding made inside exactly if Overwritten says so, leaves x alone if
      it is not listed, and otherwise gives it its binding in origin. */
  ghost predicate OldsExact(origin: GenState, e: Expr, i: nat, r: VarsResult, dirty: set<string>, x: string,
          look: Option<nat>)
    requires e.VarIn? && i <= |e.vars|
  {
    && |r.olds| == |e.vars| - i
    && var now := AfterRestore(look, e.vars[i..], r.olds, x);
    if x !in NamesFrom(e, i) then now == look && x !in Overwritten(e, i, dirty)
    else if x in Overwritten(e, i, dirty) then now.Some? && |origin.allocas| <= now.value < |r.s.allocas|
    else now == Lookup(origin, x)
  }

  lemma OldsExactStep(origin: GenState, e: Expr, i: nat, t: GenState, rest: VarsResult, dirty: set<string>,
          x: string, look: Option<nat>)
    requires e.VarIn? && i < |e.vars|
    requires var b := e.vars[i]; var before := dirty + LeakOption(b.init);
      && Rebound(origin, t, before) && SlotsExist(t) && |t.allocas| <= |rest.s.allocas|
      && OldsExact(origin, e, i + 1, rest, before + {b.name}, x, look)
      && OldsExact(origin, e, i + 1, rest, before + {b.name}, x, Lookup(t, b.name))
    ensures OldsExact(origin, e, i, rest.(olds := [Lookup(t, e.vars[i].name)] + rest.olds), dirty, x, look)
  {
    var olds := [Lookup(t, e.vars[i].name)] + rest.olds;
    assert e.vars[i..] == [e.vars[i]] + e.vars[i + 1..];
    assert e.vars[i..][1..] == e.vars[i + 1..] && olds[1..] == rest.olds;
    assert NamesFrom(e, i) == {e.vars[i].name} + NamesFrom(e, i + 1);
  }

  /** Generating code for e leaves every name meaning what it meant exactly when e leaks nothing. */
  lemma NameTableRestored(e: Expr, s: GenState)
    requires WellNumbered(s) && SlotsExist(s) && Gen(e, s).v.Some?
    ensures (forall x :: Lookup(Gen(e, s).s, x) == Lookup(s, x)) <==> Leak(e) == {}
    ensures DistinctBinders(e) ==> Leak(e) == {}
  {
    NamesAfterGen(e, s);
    var t := Gen(e, s).s;
    if x :| x in Leak(e) {
      assert Lookup(t, x) != Lookup(s, x);
    }
    if DistinctBinders(e) {
      DistinctBindersNeverLeak(e);
    }
  }
}
