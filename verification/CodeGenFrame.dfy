/** What every run of the code generator leaves alone: code is only appended, only to the insertion block
    and to new blocks, and numbers once given out are never given out again. */
module CodeGenFrame {
  import opened Wrappers
  import opened KaleidoscopeAst
  import opened Ir
  import opened CodeGenSpec

  /** Block numbers in use are below the counter, and the insertion block is one of them. */
  ghost predicate WellNumbered(s: GenState) {
    HasInsertBlock(s) && forall b :: b in s.blocks ==> b < s.nextBlock
  }

  ghost predicate IsPrefix(a: seq<Instr>, b: seq<Instr>) {
    |a| <= |b| && forall i :: 0 <= i < |a| ==> a[i] == b[i]
  }

  ghost predicate SameBlock(s: GenState, t: GenState, b: nat) {
    b in s.blocks && b in t.blocks && s.blocks[b] == t.blocks[b]
  }

  /** t is a later state of the same generator. */
  ghost predicate Grows(s: GenState, t: GenState) {
    && WellNumbered(t)
    && t.funcs == s.funcs && t.zero == s.zero && t.one == s.one
    && s.nextBlock <= t.nextBlock && s.nextTemp <= t.nextTemp && |s.allocas| <= |t.allocas|
    && (t.cur == s.cur || s.nextBlock <= t.cur)
    && (forall b :: b in s.blocks && b != s.cur ==> SameBlock(s, t, b))
    && s.cur in s.blocks && s.cur in t.blocks && IsPrefix(s.blocks[s.cur], t.blocks[s.cur])
    && (forall b :: b in t.blocks && b !in s.blocks ==> s.nextBlock <= b)
  }

  lemma GrowsTransitive(a: GenState, b: GenState, c: GenState)
    requires WellNumbered(a) && Grows(a, b) && Grows(b, c)
    ensures Grows(a, c)
  {
    forall i | i in a.blocks && i != a.cur ensures SameBlock(a, c, i) {
      assert SameBlock(a, b, i);
      assert SameBlock(b, c, i);
    }
    if b.cur != a.cur {
      assert SameBlock(b, c, a.cur);
    }
  }

  lemma EmitGrows(s: GenState, i: Instr)
    requires WellNumbered(s)
    ensures Grows(s, Emit(s, i))
  {}

  lemma DefineGrows(s: GenState, i: Instr)
    requires WellNumbered(s)
    ensures Grows(s, Define(s, i).s)
  {}

  lemma GenCallGrows(f: string, vs: seq<Operand>, s: GenState)
    requires WellNumbered(s)
    ensures Grows(s, GenCall(f, vs, s).s)
  {}

  lemma GenBinaryGrows(op: char, a: Operand, b: Operand, s: GenState)
    requires WellNumbered(s)
    ensures Grows(s, GenBinary(op, a, b, s).s)
  {
    if op == '<' {
      var c := Define(s, FCmpULT(s.nextTemp, a, b)).s;
      DefineGrows(s, FCmpULT(s.nextTemp, a, b));
      DefineGrows(c, UIToFP(c.nextTemp, Temp(s.nextTemp)));
      GrowsTransitive(s, c, GenBinary(op, a, b, s).s);
    }
  }

  lemma GenVariableGrows(x: string, s: GenState)
    requires WellNumbered(s)
    ensures Grows(s, GenVariable(x, s).s)
  {}

  lemma GenAssignGrows(x: string, v: Operand, s: GenState)
    requires WellNumbered(s)
    ensures Grows(s, GenAssign(x, v, s).s)
  {}

  lemma GrowsSelf(s: GenState)
    requires WellNumbered(s)
    ensures Grows(s, s)
  {}

  /** A later state is well numbered itself. */
  lemma GrownWellNumbered(s: GenState, t: GenState)
    requires Grows(s, t)
    ensures WellNumbered(t)
  {}

  lemma {:induction false} GenGrows(e: Expr, s: GenState)
    requires WellNumbered(s)
    ensures Grows(s, Gen(e, s).s) && WellNumbered(Gen(e, s).s)
    decreases e
  {
    hide Grows, WellNumbered, GenVariable, GenAssign, GenCall, GenBinary;
    GrowsSelf(s);
    match e {
    case Number(d) =>
    case Variable(x) => GenVariableGrows(x, s);
    case Unary(op, a) =>
      GenGrows(a, s);
      var r := Gen(a, s);
      if r.v.Some? {
        GenCallGrows(UnaryName(op), [r.v.value], r.s);
        GrowsTransitive(s, r.s, Gen(e, s).s);
      }
    case Binary(op, l, r) => GenBinaryExprGrows(e, s);
    case Call(f, args) =>
      GenArgsGrows(e, 0, s);
      var r := GenArgs(e, 0, s);
      GrownWellNumbered(s, r.s);
      if r.vs.Some? {
        GenCallGrows(f, r.vs.value, r.s);
        GrowsTransitive(s, r.s, GenCall(f, r.vs.value, r.s).s);
      }
    case If(_, _, _) => GenIfGrows(e, s);
    case For(_, _, _, _, _) => GenForGrows(e, s);
    case VarIn(vars, _) => GenVarsGrows(e, 0, s); SameCodeGrows(s, GenVars(e, 0, s).s, Gen(e, s).s);
    }
    GrownWellNumbered(s, Gen(e, s).s);
  }

  lemma SameCodeGrows(s: GenState, t: GenState, u: GenState)
    requires Grows(s, t) && u == t.(named := u.named)
    ensures Grows(s, u)
  {}

  lemma {:induction false} GenBinaryExprGrows(e: Expr, s: GenState)
    requires WellNumbered(s) && e.Binary?
    ensures Grows(s, Gen(e, s).s)
    decreases e, 0
  {
    hide Grows, WellNumbered, GenAssign, GenBinary;
    GrowsSelf(s);
    if e.op == '=' {
      var v := Gen(e.rhs, s);
      if e.lhs.Variable? {
        GenGrows(e.rhs, s);
        if v.v.Some? {
          GenAssignGrows(e.lhs.name, v.v.value, v.s);
          GrowsTransitive(s, v.s, Gen(e, s).s);
        }
      }
    } else {
      var a := Gen(e.lhs, s);
      var b := Gen(e.rhs, a.s);
      GenGrows(e.lhs, s);
      GenGrows(e.rhs, a.s);
      GrowsTransitive(s, a.s, b.s);
      if a.v.Some? && b.v.Some? {
        GenBinaryGrows(e.op, a.v.value, b.v.value, b.s);
        GrowsTransitive(s, b.s, Gen(e, s).s);
      }
    }
  }

  lemma {:induction false} GenOptionGrows(e: Option<Expr>, default: Double, s: GenState)
    requires WellNumbered(s)
    ensures Grows(s, GenOption(e, default, s).s)
    decreases e
  {
    if e.Some? { GenGrows(e.value, s); }
  }

  lemma {:induction false} GenArgsGrows(e: Expr, i: nat, s: GenState)
    requires WellNumbered(s) && e.Call? && i <= |e.args|
    ensures Grows(s, GenArgs(e, i, s).s)
    decreases e, |e.args| - i
  {
    if i < |e.args| {
      var a := Gen(e.args[i], s);
      GenGrows(e.args[i], s);
      GenArgsGrows(e, i + 1, a.s);
      GrowsTransitive(s, a.s, GenArgs(e, i + 1, a.s).s);
    }
  }

  lemma {:induction false} GenIfGrows(e: Expr, s: GenState)
    requires WellNumbered(s) && e.If?
    ensures Grows(s, Gen(e, s).s)
    decreases e, 1
  {
    hide Grows, WellNumbered, IfHead, IfElse, IfMerge;
    var rc := Gen(e.cond, s);
    GenGrows(e.cond, s);
    if rc.v.None? { return; }
    ThenGrows(e, rc.s, rc.v.value);
    var rt := Gen(e.thn, IfHead(rc.s, rc.v.value));
    GrowsTransitive(s, rc.s, rt.s);
    if rt.v.None? { return; }
    ElseGrows(e, rc.s, rt.s);
    var rf := Gen(e.els, IfElse(rt.s, rc.s.nextBlock));
    GrowsTransitive(s, rc.s, rf.s);
    if rf.v.None? { return; }
    IfMergeGrows(rc.s, rf.s, rc.s.nextBlock, rt.v.value, rt.s.cur, rf.v.value);
    GrowsTransitive(s, rc.s, Gen(e, s).s);
  }

  lemma IfMergeGrows(a: GenState, s: GenState, n: nat, v: Operand, from: nat, u: Operand)
    requires WellNumbered(a) && Grows(a, s) && a.nextBlock == n && n + 3 <= s.nextBlock
    requires n + 2 !in s.blocks
    ensures Grows(a, IfMerge(s, n, v, from, u).s)
  {
    EmitGrows(s, Br(n + 2));
    GrowsTransitive(a, s, Emit(s, Br(n + 2)));
  }

  lemma {:induction false} GenForGrows(e: Expr, s: GenState)
    requires WellNumbered(s) && e.For?
    ensures Grows(s, Gen(e, s).s)
    decreases e, 1
  {
    hide Grows, WellNumbered, ForHead, ForTail, Bind, Unbind, NewAlloca;
    var slot := |s.allocas|;
    var a := NewAlloca(s, e.varName);
    StartGrows(e, s);
    var rs := Gen(e.start, a);
    if rs.v.None? { return; }
    GrownWellNumbered(s, rs.s);
    var h := ForHead(rs.s, slot, rs.v.value);
    BindGrows(rs.s, e.varName, slot, rs.v.value);
    var b := Bind(h, e.varName, slot);
    GrowsTransitive(s, rs.s, b);
    GrownWellNumbered(s, b);
    InsideGrows(e, b);
    var rb := Gen(e.body, b);
    GrowsTransitive(s, b, rb.s);
    var rp := GenOption(e.step, s.one, rb.s);
    assert s.one == b.one by { SameConstants(s, b); }
    GrowsTransitive(s, b, rp.s);
    var re := Gen(e.end, rp.s);
    GrowsTransitive(s, b, re.s);
    if rb.v.None? || rp.v.None? || re.v.None? { return; }
    var t := ForTail(re.s, slot, rp.v.value, re.v.value, h.cur);
    GrownWellNumbered(s, re.s);
    ForTailGrows(re.s, slot, rp.v.value, re.v.value, h.cur);
    GrowsTransitive(s, re.s, t);
    UnbindGrows(s, t, e.varName, Lookup(h, e.varName));
  }

  lemma SameConstants(s: GenState, t: GenState)
    requires Grows(s, t)
    ensures t.zero == s.zero && t.one == s.one && t.funcs == s.funcs
  {}

  lemma UnbindGrows(s: GenState, t: GenState, x: string, outer: Option<nat>)
    requires Grows(s, t)
    ensures Grows(s, Unbind(t, x, outer))
  {}

  lemma ForHeadGrows(s: GenState, slot: nat, v: Operand)
    requires WellNumbered(s)
    ensures Grows(s, ForHead(s, slot, v))
  {
    var a := Emit(s, Store(v, slot));
    EmitGrows(s, Store(v, slot));
    EmitGrows(a, Br(s.nextBlock));
    GrowsTransitive(s, a, Emit(a, Br(s.nextBlock)));
  }

  lemma ForTailGrows(s: GenState, slot: nat, step: Operand, end: Operand, loop: nat)
    requires WellNumbered(s)
    ensures Grows(s, ForTail(s, slot, step, end, loop))
  {
    var l := Define(s, Load(s.nextTemp, slot)).s;
    DefineGrows(s, Load(s.nextTemp, slot));
    var a := Define(l, FBinary(l.nextTemp, FAdd, Temp(s.nextTemp), step)).s;
    DefineGrows(l, FBinary(l.nextTemp, FAdd, Temp(s.nextTemp), step));
    GrowsTransitive(s, l, a);
    var t := Emit(a, Store(Temp(l.nextTemp), slot));
    EmitGrows(a, Store(Temp(l.nextTemp), slot));
    GrowsTransitive(s, a, t);
    GrowsTransitive(s, t, ForTail(s, slot, step, end, loop));
  }

  lemma DeclareVarGrows(s: GenState, x: string, v: Operand)
    requires WellNumbered(s)
    ensures Grows(s, DeclareVar(s, x, v))
  {}

  lemma {:induction false} GenVarsGrows(e: Expr, i: nat, s: GenState)
    requires WellNumbered(s) && e.VarIn? && i <= |e.vars|
    ensures Grows(s, GenVars(e, i, s).s)
    decreases e, |e.vars| - i
  {
    if i == |e.vars| {
      GenGrows(e.body, s);
    } else {
      var r := GenOption(e.vars[i].init, s.zero, s);
      GenOptionGrows(e.vars[i].init, s.zero, s);
      if r.v.None? { return; }
      var d := DeclareVar(r.s, e.vars[i].name, r.v.value);
      DeclareVarGrows(r.s, e.vars[i].name, r.v.value);
      GrowsTransitive(s, r.s, d);
      GenVarsGrows(e, i + 1, d);
      GrowsTransitive(s, d, GenVars(e, i + 1, d).s);
    }
  }

  /** The states a conditional goes through when its code is generated. */
  lemma IfParts(e: Expr, s: GenState) returns (rc: Result, h: GenState, rt: Result, m: GenState, rf: Result)
    requires WellNumbered(s) && e.If? && Gen(e, s).v.Some?
    ensures rc == Gen(e.cond, s) && rc.v.Some? && h == IfHead(rc.s, rc.v.value)
    ensures rt == Gen(e.thn, h) && rt.v.Some? && m == IfElse(rt.s, rc.s.nextBlock)
    ensures rf == Gen(e.els, m) && rf.v.Some?
    ensures Gen(e, s) == IfMerge(rf.s, rc.s.nextBlock, rt.v.value, rt.s.cur, rf.v.value)
    ensures Grows(s, rc.s) && Grows(rc.s, h) && Grows(h, rt.s) && Grows(rc.s, rt.s) && Grows(rc.s, m) && Grows(m, rf.s)
    ensures Grows(rc.s, rf.s)
    ensures rc.s.nextBlock + 1 !in rt.s.blocks && rc.s.nextBlock + 2 !in rt.s.blocks
    ensures rc.s.nextBlock + 2 !in rf.s.blocks
    ensures rc.s.nextBlock + 2 < rf.s.nextBlock
  {
    hide IfHead, IfElse, IfMerge, Grows;
    rc := Gen(e.cond, s);
    h := IfHead(rc.s, rc.v.value);
    rt := Gen(e.thn, h);
    m := IfElse(rt.s, rc.s.nextBlock);
    rf := Gen(e.els, m);
    GenGrows(e.cond, s);
    ThenGrows(e, rc.s, rc.v.value);
    ElseGrows(e, rc.s, rt.s);
  }

  lemma {:induction false} ThenGrows(e: Expr, s: GenState, v: Operand)
    requires WellNumbered(s) && e.If?
    decreases e, 0
    ensures var h := IfHead(s, v); var r := Gen(e.thn, h).s;
      && Grows(s, h) && Grows(h, r) && Grows(s, r) && s.nextBlock + 3 <= r.nextBlock
      && s.nextBlock + 1 !in r.blocks && s.nextBlock + 2 !in r.blocks
  {
    var h := IfHead(s, v);
    GenGrows(e.thn, h);
    var r := Gen(e.thn, h).s;
    GrowsTransitive(s, h, r);
  }

  lemma {:induction false} ElseGrows(e: Expr, s: GenState, t: GenState)
    decreases e, 0
    requires e.If? && WellNumbered(s) && Grows(s, t) && s.nextBlock + 3 <= t.nextBlock
    requires s.nextBlock + 1 !in t.blocks && s.nextBlock + 2 !in t.blocks
    ensures var m := IfElse(t, s.nextBlock); var r := Gen(e.els, m).s;
      && Grows(s, m) && Grows(m, r) && Grows(s, r) && s.nextBlock + 2 !in r.blocks && s.nextBlock + 2 < r.nextBlock
  {
    var m := IfElse(t, s.nextBlock);
    GenGrows(e.els, m);
    var r := Gen(e.els, m).s;
    GrowsTransitive(s, m, r);
  }

  /** The states a loop goes through: the start value, the head of the loop block with the variable bound,
      body, step and end condition. */
  ghost predicate AreForParts(e: Expr, s: GenState, a: GenState, rs: Result, h: GenState, b: GenState, rb: Result,
          rp: Result, re: Result)
    requires e.For?
  {
    && a == NewAlloca(s, e.varName) && rs == Gen(e.start, a) && rs.v.Some?
    && h == ForHead(rs.s, |s.allocas|, rs.v.value) && b == Bind(h, e.varName, |s.allocas|)
    && rb == Gen(e.body, b) && rb.v.Some?
    && rp == GenOption(e.step, s.one, rb.s) && rp.v.Some?
    && re == Gen(e.end, rp.s) && re.v.Some?
    && Gen(e, s) == Result(Some(Const(s.zero)),
         Unbind(ForTail(re.s, |s.allocas|, rp.v.value, re.v.value, h.cur), e.varName, Lookup(h, e.varName)))
    && Grows(s, a) && Grows(a, rs.s) && Grows(rs.s, h) && Grows(rs.s, b)
    && Grows(b, rb.s) && Grows(rb.s, rp.s) && Grows(rp.s, re.s)
    && Grows(s, rs.s) && Grows(b, rp.s) && Grows(b, re.s)
  }

  lemma ForParts(e: Expr, s: GenState)
    returns (a: GenState, rs: Result, h: GenState, b: GenState, rb: Result, rp: Result, re: Result)
    requires WellNumbered(s) && e.For? && Gen(e, s).v.Some?
    ensures AreForParts(e, s, a, rs, h, b, rb, rp, re)
  {
    a := NewAlloca(s, e.varName);
    rs := Gen(e.start, a);
    h := ForHead(rs.s, |s.allocas|, rs.v.value);
    b := Bind(h, e.varName, |s.allocas|);
    rb := Gen(e.body, b);
    rp := GenOption(e.step, s.one, rb.s);
    re := Gen(e.end, rp.s);
    StartGrows(e, s);
    BindGrows(rs.s, e.varName, |s.allocas|, rs.v.value);
    InsideGrows(e, b);
  }

  lemma {:induction false} StartGrows(e: Expr, s: GenState)
    decreases e, 0
    requires WellNumbered(s) && e.For?
    ensures var a := NewAlloca(s, e.varName); var r := Gen(e.start, a).s; Grows(s, a) && Grows(a, r) && Grows(s, r)
  {
    var a := NewAlloca(s, e.varName);
    GenGrows(e.start, a);
    GrowsTransitive(s, a, Gen(e.start, a).s);
  }

  lemma BindGrows(s: GenState, x: string, slot: nat, v: Operand)
    requires WellNumbered(s)
    ensures var h := ForHead(s, slot, v); Grows(s, h) && Grows(s, Bind(h, x, slot))
  {
    ForHeadGrows(s, slot, v);
  }

  lemma {:induction false} InsideGrows(e: Expr, b: GenState)
    decreases e, 0
    requires WellNumbered(b) && e.For?
    ensures var rb := Gen(e.body, b).s; var rp := GenOption(e.step, b.one, rb).s; var re := Gen(e.end, rp).s;
      Grows(b, rb) && Grows(rb, rp) && Grows(rp, re) && Grows(b, rp) && Grows(b, re)
  {
    var rb := Gen(e.body, b);
    GenGrows(e.body, b);
    var rp := GenOption(e.step, b.one, rb.s);
    GenOptionGrows(e.step, b.one, rb.s);
    GenGrows(e.end, rp.s);
    GrowsTransitive(b, rb.s, rp.s);
    GrowsTransitive(b, rp.s, Gen(e.end, rp.s).s);
  }
}
