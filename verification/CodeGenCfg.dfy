/** The shape of the generated control-flow graph: one terminator per block, branches only to blocks of
    the function, and phis that list exactly the predecessors of their block. */
module CodeGenCfg {
  import opened Wrappers
  import opened KaleidoscopeAst
  import opened Ir
  import opened CodeGenSpec
  import opened CodeGenFrame

  /** Where control may go from the end of a block. */
  function Targets(code: seq<Instr>): set<nat> {
    if code == [] then {} else
    match code[|code| - 1]
    case Br(t) => {t}
    case CondBr(_, t, f) => {t, f}
    case _ => {}
  }

  ghost predicate Open(code: seq<Instr>) {
    forall i :: 0 <= i < |code| ==> !code[i].IsTerminator()
  }

  /** Exactly one terminator, at the end. */
  ghost predicate Sealed(code: seq<Instr>) {
    code != [] && code[|code| - 1].IsTerminator() && Open(code[..|code| - 1])
  }

  function Preds(blocks: map<nat, seq<Instr>>, id: nat): set<nat> {
    set b | b in blocks && id in Targets(blocks[b])
  }

  function Sources(incoming: seq<Incoming>): set<nat> {
    set k | k in incoming :: k.from
  }

  /** A phi stands first in its block and names each predecessor once. */
  ghost predicate PhisMatch(blocks: map<nat, seq<Instr>>, b: nat)
    requires b in blocks
  {
    forall i :: 0 <= i < |blocks[b]| && blocks[b][i].Phi? ==>
      && i == 0
      && Sources(blocks[b][i].incoming) == Preds(blocks, b)
      && |blocks[b][i].incoming| == |Preds(blocks, b)|
  }

  /** The graph while it is being built: only the insertion block is open. */
  ghost predicate Cfg(s: GenState) {
    && WellNumbered(s) && Open(s.blocks[s.cur])
    && (forall b :: b in s.blocks && b != s.cur ==> Sealed(s.blocks[b]))
    && (forall b, t :: b in s.blocks && t in Targets(s.blocks[b]) ==> t < s.nextBlock)
    && (forall b :: b in s.blocks ==> PhisMatch(s.blocks, b))
  }

  ghost predicate PhiFree(code: seq<Instr>, from: nat) {
    forall i :: from <= i < |code| ==> !code[i].Phi?
  }

  /** From s to t, no edge was added to a block numbered before, and no phi to the insertion block. */
  ghost predicate Linked(s: GenState, t: GenState) {
    && (forall id: nat :: id < s.nextBlock ==> Preds(t.blocks, id) == Preds(s.blocks, id))
    && s.cur in s.blocks && s.cur in t.blocks && PhiFree(t.blocks[s.cur], |s.blocks[s.cur]|)
  }

  /** Every block number given out from s to t has been used. */
  ghost predicate Filled(s: GenState, t: GenState) {
    forall id :: s.nextBlock <= id < t.nextBlock ==> id in t.blocks
  }

  ghost predicate CfgGrows(s: GenState, t: GenState) {
    Grows(s, t) && Cfg(t) && Linked(s, t) && Filled(s, t)
  }

  lemma FilledTransitive(a: GenState, b: GenState, c: GenState)
    requires Grows(a, b) && Grows(b, c) && Filled(a, b) && Filled(b, c)
    ensures Filled(a, c)
  {
    forall id | a.nextBlock <= id < c.nextBlock ensures id in c.blocks {
      if id < b.nextBlock && id != b.cur { assert SameBlock(b, c, id); }
    }
  }

  lemma CfgTransitive(a: GenState, b: GenState, c: GenState)
    requires Cfg(a) && CfgGrows(a, b) && CfgGrows(b, c)
    ensures CfgGrows(a, c)
  {
    HasNumbers(a);
    hide Linked, Filled, Cfg;
    GrowsTransitive(a, b, c);
    FilledTransitive(a, b, c);
  }

  ghost predicate Plain(i: Instr) {
    !i.IsTerminator() && !i.Phi?
  }

  /** Ordinary instructions leave the graph alone. */
  lemma EmitCfg(s: GenState, i: Instr)
    requires Cfg(s) && Plain(i)
    ensures CfgGrows(s, Emit(s, i)) && Targets(Emit(s, i).blocks[s.cur]) == {}
  {
    var t := Emit(s, i);
    EmitGrows(s, i);
    assert Targets(s.blocks[s.cur]) == {};
    assert Targets(t.blocks[s.cur]) == {};
    forall id ensures Preds(t.blocks, id) == Preds(s.blocks, id) {}
    forall b | b in t.blocks ensures PhisMatch(t.blocks, b) { assert PhisMatch(s.blocks, b); }
  }

  lemma DefineCfg(s: GenState, i: Instr)
    requires Cfg(s) && Plain(i)
    ensures CfgGrows(s, Define(s, i).s)
  {
    EmitCfg(s, i);
    CfgTransitive(s, Emit(s, i), Define(s, i).s);
  }

  /** The state after the insertion block has been ended by i and block id begun. */
  function EndBlock(s: GenState, i: Instr, nextBlock: nat, id: nat): GenState {
    StartBlock(Emit(s, i).(nextBlock := nextBlock), id)
  }

  /** Ending a block adds exactly the edges of its terminator. */
  lemma EndBlockPreds(s: GenState, i: Instr, nextBlock: nat, id: nat)
    requires HasInsertBlock(s) && Open(s.blocks[s.cur]) && i.IsTerminator() && id !in s.blocks
    ensures var t := EndBlock(s, i, nextBlock, id);
      && t.blocks == s.blocks[s.cur := s.blocks[s.cur] + [i]][id := []]
      && forall x :: Preds(t.blocks, x) == Preds(s.blocks, x) + if x in Targets([i]) then {s.cur} else {}
  {
    var t := EndBlock(s, i, nextBlock, id);
    assert Targets(t.blocks[s.cur]) == Targets([i]) && Targets(s.blocks[s.cur]) == {} && Targets(t.blocks[id]) == {};
    forall x ensures Preds(t.blocks, x) == Preds(s.blocks, x) + (if x in Targets([i]) then {s.cur} else {}) {
      var added := if x in Targets([i]) then {s.cur} else {};
      forall b ensures b in Preds(t.blocks, x) <==> b in Preds(s.blocks, x) + added {}
    }
  }

  lemma EndBlockPhis(s: GenState, i: Instr, nextBlock: nat, id: nat, b: nat)
    requires Cfg(s) && i.IsTerminator() && id !in s.blocks
    requires forall t :: t in Targets([i]) && t in s.blocks ==> PhiFree(s.blocks[t], 0)
    requires b in EndBlock(s, i, nextBlock, id).blocks
    ensures PhisMatch(EndBlock(s, i, nextBlock, id).blocks, b)
  {
    hide Preds, Targets, WellNumbered, Sealed, Open;
    var t := EndBlock(s, i, nextBlock, id);
    assert Open(s.blocks[s.cur]) && HasInsertBlock(s) by { HasBlock(s); }
    EndBlockPreds(s, i, nextBlock, id);
    if b != id {
      assert PhisMatch(s.blocks, b);
      if b in Targets([i]) {
        assert PhiFree(s.blocks[b], 0);
      } else {
        assert Preds(t.blocks, b) == Preds(s.blocks, b);
      }
    }
  }

  lemma HasBlock(s: GenState)
    requires Cfg(s)
    ensures HasInsertBlock(s)
  {}

  lemma EndBlockCfg(s: GenState, i: Instr, nextBlock: nat, id: nat)
    requires Cfg(s) && i.IsTerminator() && s.nextBlock <= nextBlock && id < nextBlock && id !in s.blocks
    requires forall t :: t in Targets([i]) ==> t < nextBlock && (t in s.blocks ==> PhiFree(s.blocks[t], 0))
    ensures var t := EndBlock(s, i, nextBlock, id);
      && Cfg(t) && t.blocks[id] == [] && PhiFree(t.blocks[s.cur], |s.blocks[s.cur]|)
      && forall x :: Preds(t.blocks, x) == Preds(s.blocks, x) + if x in Targets([i]) then {s.cur} else {}
  {
    hide PhisMatch, Preds, Targets, Open, Sealed, WellNumbered, PhiFree;
    var t := EndBlock(s, i, nextBlock, id);
    IsOpen(s);
    EndBlockPreds(s, i, nextBlock, id);
    EndBlockSealed(s, i, nextBlock, id);
    forall b | b in t.blocks ensures PhisMatch(t.blocks, b) {
      EndBlockPhis(s, i, nextBlock, id, b);
    }
  }

  lemma IsOpen(s: GenState)
    requires Cfg(s)
    ensures HasInsertBlock(s) && Open(s.blocks[s.cur])
  {}

  /** Ending a block leaves one terminator in it, and the new block open. */
  lemma EndBlockSealed(s: GenState, i: Instr, nextBlock: nat, id: nat)
    requires Cfg(s) && i.IsTerminator() && s.nextBlock <= nextBlock && id < nextBlock && id !in s.blocks
    requires forall t :: t in Targets([i]) ==> t < nextBlock
    ensures var t := EndBlock(s, i, nextBlock, id);
      && WellNumbered(t) && t.cur == id && t.blocks[id] == [] && Open(t.blocks[id])
      && PhiFree(t.blocks[s.cur], |s.blocks[s.cur]|)
      && (forall b :: b in t.blocks && b != id ==> Sealed(t.blocks[b]))
      && (forall b, x :: b in t.blocks && x in Targets(t.blocks[b]) ==> x < nextBlock)
  {
    hide PhisMatch;
    var t := EndBlock(s, i, nextBlock, id);
    assert t.blocks == s.blocks[s.cur := s.blocks[s.cur] + [i]][id := []];
    assert t.blocks[s.cur][..|s.blocks[s.cur]|] == s.blocks[s.cur];
    assert Targets(t.blocks[s.cur]) == Targets([i]) && Targets(t.blocks[id]) == {};
  }

  lemma LinkedPreds(s: GenState, t: GenState, id: nat)
    requires Linked(s, t) && id < s.nextBlock
    ensures Preds(t.blocks, id) == Preds(s.blocks, id)
  {}

  lemma FreshHasNoPreds(s: GenState, id: nat)
    requires Cfg(s) && s.nextBlock <= id
    ensures Preds(s.blocks, id) == {}
  {}

  /** A phi that lists the predecessors may open an empty block. */
  lemma PhiCfg(s: GenState, incoming: seq<Incoming>)
    requires Cfg(s) && s.blocks[s.cur] == []
    requires Sources(incoming) == Preds(s.blocks, s.cur) && |incoming| == |Preds(s.blocks, s.cur)|
    ensures var t := Define(s, Phi(s.nextTemp, incoming)).s;
      Cfg(t) && forall x :: Preds(t.blocks, x) == Preds(s.blocks, x)
  {
    var t := Define(s, Phi(s.nextTemp, incoming)).s;
    assert Targets(t.blocks[s.cur]) == {} == Targets(s.blocks[s.cur]);
    forall x ensures Preds(t.blocks, x) == Preds(s.blocks, x) {}
    hide Preds;
    forall b | b in t.blocks ensures PhisMatch(t.blocks, b) { assert PhisMatch(s.blocks, b); }
  }

  lemma {:induction false} GenCfg(e: Expr, s: GenState)
    requires Cfg(s) && Gen(e, s).v.Some?
    ensures CfgGrows(s, Gen(e, s).s)
    decreases e
  {
    hide Cfg, Grows, Linked, Filled, Emit;
    match e {
    case Number(_) => CfgSelf(s);
    case Variable(x) => VariableCfg(x, s);
    case Unary(op, a) =>
      GenCfg(a, s);
      var r := Gen(a, s);
      DefineCfg(r.s, CallFn(r.s.nextTemp, UnaryName(op), [r.v.value]));
      CfgTransitive(s, r.s, Gen(e, s).s);
    case Binary(op, l, r) => BinaryCfg(e, s);
    case Call(f, args) =>
      ArgsCfg(e, 0, s);
      var r := GenArgs(e, 0, s);
      DefineCfg(r.s, CallFn(r.s.nextTemp, f, r.vs.value));
      CfgTransitive(s, r.s, Gen(e, s).s);
    case If(_, _, _) => IfCfg(e, s);
    case For(_, _, _, _, _) => ForCfg(e, s);
    case VarIn(_, _) =>
      VarsCfg(e, 0, s);
      RenamedCfg(s, GenVars(e, 0, s).s, Gen(e, s).s);
    }
  }

  lemma HasNumbers(s: GenState)
    requires Cfg(s)
    ensures WellNumbered(s)
  {}

  lemma CfgSelf(s: GenState)
    requires Cfg(s)
    ensures CfgGrows(s, s)
  {}

  lemma RenamedCfg(s: GenState, t: GenState, u: GenState)
    requires CfgGrows(s, t) && u == t.(named := u.named)
    ensures CfgGrows(s, u)
  {}

  lemma VariableCfg(x: string, s: GenState)
    requires Cfg(s) && GenVariable(x, s).v.Some?
    ensures CfgGrows(s, GenVariable(x, s).s)
  {
    DefineCfg(s, Load(s.nextTemp, Lookup(s, x).value));
  }

  lemma {:induction false} BinaryCfg(e: Expr, s: GenState)
    requires Cfg(s) && e.Binary? && Gen(e, s).v.Some?
    ensures CfgGrows(s, Gen(e, s).s)
    decreases e, 0
  {
    hide Cfg, Grows, Linked, Filled, Emit;
    if e.op == '=' {
      GenCfg(e.rhs, s);
      var r := Gen(e.rhs, s);
      EmitCfg(r.s, Store(r.v.value, Lookup(r.s, e.lhs.name).value));
      CfgTransitive(s, r.s, Gen(e, s).s);
    } else {
      var a := Gen(e.lhs, s);
      var b := Gen(e.rhs, a.s);
      GenCfg(e.lhs, s);
      GenCfg(e.rhs, a.s);
      CfgTransitive(s, a.s, b.s);
      OperatorCfg(e.op, a.v.value, b.v.value, b.s);
      CfgTransitive(s, b.s, Gen(e, s).s);
    }
  }

  lemma OperatorCfg(op: char, a: Operand, b: Operand, s: GenState)
    requires Cfg(s) && GenBinary(op, a, b, s).v.Some?
    ensures CfgGrows(s, GenBinary(op, a, b, s).s)
  {
    hide Cfg, Grows, Linked, Filled, Emit;
    match op
    case '+' => DefineCfg(s, FBinary(s.nextTemp, FAdd, a, b));
    case '-' => DefineCfg(s, FBinary(s.nextTemp, FSub, a, b));
    case '*' => DefineCfg(s, FBinary(s.nextTemp, FMul, a, b));
    case '<' =>
      var t := Define(s, FCmpULT(s.nextTemp, a, b)).s;
      DefineCfg(s, FCmpULT(s.nextTemp, a, b));
      DefineCfg(t, UIToFP(t.nextTemp, Temp(s.nextTemp)));
      CfgTransitive(s, t, GenBinary(op, a, b, s).s);
    case _ => DefineCfg(s, CallFn(s.nextTemp, BinaryName(op), [a, b]));
  }

  lemma {:induction false} OptionCfg(e: Option<Expr>, default: Double, s: GenState)
    requires Cfg(s) && GenOption(e, default, s).v.Some?
    ensures CfgGrows(s, GenOption(e, default, s).s)
    decreases e
  {
    if e.Some? { GenCfg(e.value, s); } else { CfgSelf(s); }
  }

  lemma {:induction false} ArgsCfg(e: Expr, i: nat, s: GenState)
    requires Cfg(s) && e.Call? && i <= |e.args| && GenArgs(e, i, s).vs.Some?
    ensures CfgGrows(s, GenArgs(e, i, s).s)
    decreases e, |e.args| - i
  {
    hide Cfg, Grows, Linked, Filled;
    if i == |e.args| {
      CfgSelf(s);
    } else {
      var a := Gen(e.args[i], s);
      GenCfg(e.args[i], s);
      ArgsCfg(e, i + 1, a.s);
      CfgTransitive(s, a.s, GenArgs(e, i, s).s);
    }
  }

  lemma {:induction false} VarsCfg(e: Expr, i: nat, s: GenState)
    requires Cfg(s) && e.VarIn? && i <= |e.vars| && GenVars(e, i, s).v.Some?
    ensures CfgGrows(s, GenVars(e, i, s).s)
    decreases e, |e.vars| - i
  {
    hide Cfg, Grows, Linked, Filled, DeclareVar;
    if i == |e.vars| {
      GenCfg(e.body, s);
    } else {
      var r := GenOption(e.vars[i].init, s.zero, s);
      var d := DeclareVar(r.s, e.vars[i].name, r.v.value);
      OptionCfg(e.vars[i].init, s.zero, s);
      DeclareCfg(r.s, e.vars[i].name, r.v.value);
      CfgTransitive(s, r.s, d);
      VarsCfg(e, i + 1, d);
      CfgTransitive(s, d, GenVars(e, i, s).s);
    }
  }

  lemma DeclareCfg(s: GenState, x: string, v: Operand)
    requires Cfg(s)
    ensures CfgGrows(s, DeclareVar(s, x, v))
  {
    var a := NewAlloca(s, x);
    EmitCfg(a, Store(v, |s.allocas|));
    CfgTransitive(s, a, Emit(a, Store(v, |s.allocas|)));
    RenamedCfg(s, Emit(a, Store(v, |s.allocas|)), DeclareVar(s, x, v));
  }

  lemma {:induction false} IfCfg(e: Expr, s: GenState)
    requires Cfg(s) && e.If? && Gen(e, s).v.Some?
    ensures CfgGrows(s, Gen(e, s).s)
    decreases e, 1
  {
    hide Cfg, Grows, Linked, Filled, IfHead, IfElse, IfMerge, Preds, Gen;
    HasNumbers(s);
    var rc, h, rt, els, rf := IfParts(e, s);
    GenCfg(e.cond, s);
    HasNumbers(rc.s);
    HeadCfg(rc.s, rc.v.value);
    ArmEnds(rc.s, h, rt.s, els, rf.s);
    GenCfg(e.thn, h);
    ElseCfg(rc.s, h, rt.s);
    GenCfg(e.els, els);
    MergeCfg(rc.s, rt.s, els, rf.s, rt.v.value, rf.v.value);
    IfMergeGrows(rc.s, rf.s, rc.s.nextBlock, rt.v.value, rt.s.cur, rf.v.value);
    ElseKeeps(rc.s, h, rt.s);
    MergeKeeps(rc.s, els, rf.s, rt.v.value, rt.s.cur, rf.v.value);
    ArmsLinked(rc.s, h, rt.s, els, rf.s, Gen(e, s).s);
    CfgTransitive(s, rc.s, Gen(e, s).s);
  }

  /** The code of the branching block and of both arms is left alone by what follows. */
  lemma ElseKeeps(s: GenState, h: GenState, t: GenState)
    requires WellNumbered(s) && Grows(s, h) && Grows(h, t) && h.cur == s.nextBlock && s.nextBlock + 1 < h.nextBlock
    requires s.nextBlock + 1 !in t.blocks
    ensures var els := IfElse(t, s.nextBlock);
      && s.cur in h.blocks && s.cur in t.blocks && t.blocks.Keys <= els.blocks.Keys
      && s.cur in els.blocks && els.blocks[s.cur] == h.blocks[s.cur]
  {
    assert SameBlock(h, t, s.cur);
  }

  lemma MergeKeeps(s: GenState, els: GenState, f: GenState, v: Operand, from: nat, u: Operand)
    requires WellNumbered(s) && Grows(els, f) && els.cur == s.nextBlock + 1 && s.nextBlock + 2 < els.nextBlock
    requires s.cur in els.blocks && s.nextBlock + 2 !in f.blocks
    ensures var r := IfMerge(f, s.nextBlock, v, from, u).s;
      && r.nextBlock == f.nextBlock && s.nextBlock + 2 in r.blocks && f.blocks.Keys <= r.blocks.Keys
      && s.cur in r.blocks && r.blocks[s.cur] == els.blocks[s.cur]
  {
    assert SameBlock(els, f, s.cur);
  }

  lemma ArmEnds(s: GenState, h: GenState, t: GenState, els: GenState, f: GenState)
    requires WellNumbered(s) && Grows(s, t) && Grows(s, els) && Grows(els, f) && Grows(h, t)
    requires els == IfElse(t, s.nextBlock)
    requires s.nextBlock + 3 <= h.nextBlock && h.cur == s.nextBlock && s.nextBlock + 1 !in t.blocks
    ensures s.nextBlock + 2 < els.nextBlock && t.cur != f.cur && t.cur != s.cur && t.cur != els.cur
  {}

  /** The branch of a conditional. */
  lemma HeadCfg(s: GenState, v: Operand)
    requires Cfg(s)
    ensures var h := IfHead(s, v); var n := s.nextBlock;
      && Cfg(h) && h.cur == n && h.nextBlock == n + 3 && h.blocks[n] == []
      && Preds(h.blocks, n + 1) == {s.cur} && Preds(h.blocks, n + 2) == {}
      && Linked(s, h)
  {
    hide Preds, Cfg, Grows, Targets, Emit, EndBlock, IfHead, Linked, Filled;
    var n := s.nextBlock;
    var i := FCmpONE(s.nextTemp, v, Const(s.zero));
    var t := Define(s, i).s;
    var br := CondBr(Temp(s.nextTemp), n, n + 1);
    HasNumbers(s);
    DefineCfg(s, i);
    HasNumbers(t);
    HeadIsEndBlock(s, v);
    FreshHasNoPreds(t, n + 1);
    FreshHasNoPreds(t, n + 2);
    EndBlockCfg(t, br, n + 3, n);
    HeadLinked(s, t, IfHead(s, v), br);
  }

  /** The branch of a conditional ends its block. */
  lemma HeadIsEndBlock(s: GenState, v: Operand)
    requires WellNumbered(s)
    ensures var t := Define(s, FCmpONE(s.nextTemp, v, Const(s.zero))).s;
      var n := s.nextBlock;
      var br := CondBr(Temp(s.nextTemp), n, n + 1);
      && IfHead(s, v) == EndBlock(t, br, n + 3, n) && Targets([br]) == {n, n + 1}
      && t.cur == s.cur && t.nextBlock == n && n !in t.blocks && n + 1 !in t.blocks
      && |s.blocks[s.cur]| <= |t.blocks[s.cur]|
      && IfHead(s, v).cur == n && IfHead(s, v).nextBlock == n + 3 && s.cur in IfHead(s, v).blocks
      && IsPrefix(t.blocks[s.cur], IfHead(s, v).blocks[s.cur])
  {
    hide Targets;
    TargetsOfBranch(Temp(s.nextTemp), s.nextBlock, s.nextBlock + 1);
  }

  lemma TargetsOfBranch(v: Operand, yes: nat, no: nat)
    ensures Targets([CondBr(v, yes, no)]) == {yes, no}
  {}

  lemma HeadLinked(s: GenState, t: GenState, h: GenState, br: Instr)
    requires WellNumbered(s) && Linked(s, t) && t.cur == s.cur && |s.blocks[s.cur]| <= |t.blocks[s.cur]|
    requires s.cur in h.blocks && IsPrefix(t.blocks[s.cur], h.blocks[s.cur])
    requires PhiFree(h.blocks[s.cur], |t.blocks[s.cur]|)
    requires forall x :: Preds(h.blocks, x) == Preds(t.blocks, x) + if x in Targets([br]) then {t.cur} else {}
    requires forall x :: x in Targets([br]) ==> s.nextBlock <= x
    ensures Linked(s, h)
  {
    hide Preds, Targets;
    forall id: nat | id < s.nextBlock ensures Preds(h.blocks, id) == Preds(s.blocks, id) {
      assert Preds(t.blocks, id) == Preds(s.blocks, id);
      assert id !in Targets([br]);
    }
  }

  /** The end of the then arm. */
  lemma ElseCfg(s: GenState, h: GenState, t: GenState)
    requires CfgGrows(h, t) && h.nextBlock == s.nextBlock + 3 && Preds(h.blocks, s.nextBlock + 2) == {}
    requires s.nextBlock + 1 !in t.blocks && s.nextBlock + 2 !in t.blocks
    ensures var els := IfElse(t, s.nextBlock); var n := s.nextBlock;
      && Cfg(els) && els.cur == n + 1 && els.nextBlock == t.nextBlock && els.blocks[n + 1] == []
      && Preds(els.blocks, n + 2) == {t.cur}
      && (forall x :: x != n + 2 ==> Preds(els.blocks, x) == Preds(t.blocks, x))
  {
    hide Preds, Cfg, Grows;
    var n := s.nextBlock;
    assert Preds(t.blocks, n + 2) == {};
    assert n + 2 < t.nextBlock by { LaterNumbers(h, t); }
    assert Targets([Br(n + 2)]) == {n + 2};
    EndBlockCfg(t, Br(n + 2), t.nextBlock, n + 1);
    assert EndBlock(t, Br(n + 2), t.nextBlock, n + 1) == IfElse(t, n);
  }

  lemma LaterNumbers(s: GenState, t: GenState)
    requires Grows(s, t)
    ensures s.nextBlock <= t.nextBlock
  {}

  /** The end of the else arm. */
  lemma ElseEndCfg(s: GenState, t: GenState, els: GenState, f: GenState)
    requires CfgGrows(els, f) && Preds(els.blocks, s.nextBlock + 2) == {t.cur}
    requires s.nextBlock + 2 < els.nextBlock && s.nextBlock + 2 !in f.blocks
    ensures var n := s.nextBlock; var m := StartBlock(Emit(f, Br(n + 2)), n + 2);
      && Cfg(m) && m.blocks[n + 2] == [] && Preds(m.blocks, n + 2) == {t.cur, f.cur}
      && (forall x :: x != n + 2 ==> Preds(m.blocks, x) == Preds(f.blocks, x))
  {
    hide Preds, Cfg, Grows;
    var n := s.nextBlock;
    assert Preds(f.blocks, n + 2) == {t.cur};
    assert n + 2 < f.nextBlock by { LaterNumbers(els, f); }
    assert Targets([Br(n + 2)]) == {n + 2};
    EndBlockCfg(f, Br(n + 2), f.nextBlock, n + 2);
    assert EndBlock(f, Br(n + 2), f.nextBlock, n + 2) == StartBlock(Emit(f, Br(n + 2)), n + 2);
  }

  /** The phi names the ends of both arms, the only predecessors of the merge block. */
  lemma MergeCfg(s: GenState, t: GenState, els: GenState, f: GenState, v: Operand, u: Operand)
    requires CfgGrows(els, f) && Preds(els.blocks, s.nextBlock + 2) == {t.cur}
    requires s.nextBlock + 2 < els.nextBlock && s.nextBlock + 2 !in f.blocks && t.cur != f.cur
    ensures var r := IfMerge(f, s.nextBlock, v, t.cur, u).s; var n := s.nextBlock;
      && Cfg(r) && Preds(r.blocks, n + 2) == {t.cur, f.cur}
      && (forall x :: x != n + 2 ==> Preds(r.blocks, x) == Preds(f.blocks, x))
  {
    hide Preds, Cfg, Grows, Emit, Filled, Linked;
    ElseEndCfg(s, t, els, f);
    var m := StartBlock(Emit(f, Br(s.nextBlock + 2)), s.nextBlock + 2);
    var incoming := [Incoming(v, t.cur), Incoming(u, f.cur)];
    assert Sources(incoming) == {t.cur, f.cur} by {
      assert incoming[0] in incoming && incoming[1] in incoming;
    }
    PhiCfg(m, incoming);
  }

  lemma ArmsLinked(s: GenState, h: GenState, t: GenState, els: GenState, f: GenState, r: GenState)
    requires WellNumbered(s) && Grows(s, h) && Grows(s, r) && Linked(s, h) && h.cur == s.nextBlock
    requires h.nextBlock == s.nextBlock + 3
    requires Linked(h, t) && Filled(h, t) && Grows(h, t) && Linked(els, f) && Filled(els, f) && Grows(els, f)
    requires els.nextBlock == t.nextBlock && els.cur == s.nextBlock + 1 && r.nextBlock == f.nextBlock
    requires forall x :: x != s.nextBlock + 2 ==>
      Preds(els.blocks, x) == Preds(t.blocks, x) && Preds(r.blocks, x) == Preds(f.blocks, x)
    requires s.nextBlock + 2 in r.blocks && t.blocks.Keys <= els.blocks.Keys && f.blocks.Keys <= r.blocks.Keys
    requires s.cur in r.blocks && s.cur in h.blocks && r.blocks[s.cur] == h.blocks[s.cur]
    ensures Linked(s, r) && Filled(s, r)
  {
    forall id: nat | id < s.nextBlock ensures Preds(r.blocks, id) == Preds(s.blocks, id) {
      assert Preds(h.blocks, id) == Preds(s.blocks, id);
      assert Preds(t.blocks, id) == Preds(h.blocks, id);
      assert Preds(f.blocks, id) == Preds(els.blocks, id);
    }
    hide Preds;
    forall id | s.nextBlock <= id < r.nextBlock ensures id in r.blocks {
      if id == s.nextBlock || s.nextBlock + 3 <= id < t.nextBlock { assert id in t.blocks; }
      if id == s.nextBlock + 1 { assert id in els.blocks; }
    }
  }

  lemma {:induction false} ForCfg(e: Expr, s: GenState)
    requires Cfg(s) && e.For? && Gen(e, s).v.Some?
    ensures CfgGrows(s, Gen(e, s).s)
    decreases e, 1
  {
    hide Cfg, Grows, Linked, Filled, ForHead, ForTail, Bind, Unbind, NewAlloca;
    HasNumbers(s);
    var a, rs, h, b, rb, rp, re := ForParts(e, s);
    SlotCfg(s, e.varName);
    GenCfg(e.start, a);
    CfgTransitive(s, a, rs.s);
    LoopHeadCfg(rs.s, |s.allocas|, rs.v.value, e.varName);
    GenCfg(e.body, b);
    OptionCfg(e.step, s.one, rb.s);
    CfgTransitive(b, rb.s, rp.s);
    GenCfg(e.end, rp.s);
    CfgTransitive(b, rp.s, re.s);
    var tail := ForTail(re.s, |s.allocas|, rp.v.value, re.v.value, h.cur);
    LoopTailCfg(rs.s, b, re.s, |s.allocas|, rp.v.value, re.v.value, h.cur);
    CfgTransitive(s, rs.s, tail);
    UnboundCfg(s, tail, e.varName, Lookup(h, e.varName));
  }

  lemma SlotCfg(s: GenState, x: string)
    requires Cfg(s)
    ensures CfgGrows(s, NewAlloca(s, x))
  {}

  lemma UnboundCfg(s: GenState, t: GenState, x: string, outer: Option<nat>)
    requires CfgGrows(s, t)
    ensures CfgGrows(s, Unbind(t, x, outer))
  {}

  /** The jump into a loop. */
  lemma LoopHeadCfg(s: GenState, slot: nat, v: Operand, x: string)
    requires Cfg(s)
    ensures var b := Bind(ForHead(s, slot, v), x, slot);
      && CfgGrows(s, b) && b.cur == s.nextBlock == ForHead(s, slot, v).cur && b.nextBlock == s.nextBlock + 1
      && b.blocks[b.cur] == []
  {
    hide Preds, Cfg, Grows;
    var n := s.nextBlock;
    var t := Emit(s, Store(v, slot));
    HasNumbers(s);
    EmitCfg(s, Store(v, slot));
    assert Targets([Br(n)]) == {n};
    EndBlockCfg(t, Br(n), n + 1, n);
    var h := ForHead(s, slot, v);
    assert EndBlock(t, Br(n), n + 1, n) == h;
    HeadLinked(s, t, h, Br(n));
    ForHeadGrows(s, slot, v);
    assert CfgGrows(s, h);
    RenamedCfg(s, h, Bind(h, x, slot));
  }

  /** The end of a loop: an edge back to the loop block, which has no phi, and one out of the loop. */
  lemma LoopTailCfg(s: GenState, b: GenState, t: GenState, slot: nat, step: Operand, end: Operand, loop: nat)
    requires Cfg(s) && CfgGrows(s, b) && CfgGrows(b, t)
    requires b.cur == s.nextBlock == loop && b.nextBlock == loop + 1 && b.blocks[loop] == []
    ensures CfgGrows(s, ForTail(t, slot, step, end, loop))
  {
    hide Preds, Cfg, Grows, Increment, Linked, Filled, Emit, Targets;
    var i := Increment(t, slot, step);
    IncrementCfg(t, slot, step);
    CfgTransitive(b, t, i);
    var test := FCmpONE(i.nextTemp, end, Const(t.zero));
    assert i.zero == t.zero by { SameConstants(t, i); }
    var c := Define(i, test).s;
    DefineCfg(i, test);
    CfgTransitive(b, i, c);
    var br := CondBr(Temp(i.nextTemp), loop, c.nextBlock);
    var u := EndBlock(c, br, c.nextBlock + 1, c.nextBlock);
    assert u == ForTail(t, slot, step, end, loop);
    HasNumbers(c);
    LaterNumbers(b, c);
    TargetsOfBranch(Temp(i.nextTemp), loop, c.nextBlock);
    LoopPhiFree(b, c);
    EndBlockCfg(c, br, c.nextBlock + 1, c.nextBlock);
    HasNumbers(s);
    HasNumbers(t);
    ForTailGrows(t, slot, step, end, loop);
    BackEdgeLinked(s, b, c, u, br, loop);
    GrowsTransitive(s, b, t);
    GrowsTransitive(s, t, u);
  }

  lemma LoopPhiFree(b: GenState, c: GenState)
    requires Linked(b, c) && b.blocks[b.cur] == []
    ensures b.cur in c.blocks && PhiFree(c.blocks[b.cur], 0)
  {}

  lemma IncrementCfg(s: GenState, slot: nat, step: Operand)
    requires Cfg(s)
    ensures CfgGrows(s, Increment(s, slot, step))
  {
    hide Preds, Cfg, Grows, Linked, Filled, Emit;
    var i := Load(s.nextTemp, slot);
    var l := Define(s, i).s;
    DefineCfg(s, i);
    var j := FBinary(l.nextTemp, FAdd, Temp(s.nextTemp), step);
    DefineCfg(l, j);
    var a := Define(l, j).s;
    CfgTransitive(s, l, a);
    EmitCfg(a, Store(Temp(s.nextTemp + 1), slot));
    CfgTransitive(s, a, Increment(s, slot, step));
  }

  lemma BackEdgeLinked(s: GenState, b: GenState, c: GenState, u: GenState, br: Instr, loop: nat)
    requires WellNumbered(s) && CfgGrows(s, b) && CfgGrows(b, c) && s.nextBlock == b.cur == loop
    requires b.nextBlock == loop + 1
    requires u == EndBlock(c, br, c.nextBlock + 1, c.nextBlock) && Targets([br]) == {loop, c.nextBlock}
    requires forall x :: Preds(u.blocks, x) == Preds(c.blocks, x) + if x in Targets([br]) then {c.cur} else {}
    ensures Linked(s, u) && Filled(s, u)
  {
    hide Cfg;
    forall id: nat | id < s.nextBlock ensures Preds(u.blocks, id) == Preds(s.blocks, id) {
      hide Preds, Targets;
      assert Preds(b.blocks, id) == Preds(s.blocks, id);
      assert Preds(c.blocks, id) == Preds(b.blocks, id);
      assert id !in Targets([br]);
    }
    hide Preds, Targets;
    assert SameBlock(b, c, s.cur);
    assert u.blocks[s.cur] == c.blocks[s.cur];
    forall id | s.nextBlock <= id < u.nextBlock ensures id in u.blocks {
      if id == loop { assert id in c.blocks; }
    }
  }

  /** A finished function: every block ends in its one terminator, every branch leads to a block, nothing
      leads to the entry block, and every phi stands first and names exactly its predecessors. */
  ghost predicate WellFormedGraph(f: Function) {
    && 0 in f.blocks && Preds(f.blocks, 0) == {}
    && (forall b :: b in f.blocks ==> Sealed(f.blocks[b]) && PhisMatch(f.blocks, b))
    && (forall b, t :: b in f.blocks && t in Targets(f.blocks[b]) ==> t in f.blocks)
  }

  lemma {:induction false} ParamsCfg(params: seq<string>, i: nat, s: GenState)
    requires Cfg(s) && i <= |params|
    ensures CfgGrows(s, GenParams(params, i, s))
    decreases |params| - i
  {
    hide Cfg, Grows, Linked, Filled, DeclareVar;
    if i == |params| {
      CfgSelf(s);
    } else {
      var d := DeclareVar(s, params[i], Param(i));
      DeclareCfg(s, params[i], Param(i));
      ParamsCfg(params, i + 1, d);
      CfgTransitive(s, d, GenParams(params, i, s));
    }
  }

  /** Every generated function has a well-formed control-flow graph. */
  lemma GeneratedGraphWellFormed(params: seq<string>, body: Expr, funcs: map<string, nat>, zero: Double, one: Double)
    requires GenFunction(params, body, funcs, zero, one).Some?
    ensures WellFormedGraph(GenFunction(params, body, funcs, zero, one).value)
  {
    var e := EmptyFunction(funcs, zero, one);
    assert Cfg(e);
    hide Cfg, Linked, Grows, GenParams, WellFormedGraph;
    var s := GenParams(params, 0, e);
    ParamsCfg(params, 0, e);
    var r := Gen(body, s);
    GenCfg(body, s);
    CfgTransitive(e, s, r.s);
    RetCfg(e, r.s, r.v.value);
  }

  lemma RetCfg(e: GenState, s: GenState, v: Operand)
    requires CfgGrows(e, s) && e.nextBlock == 1 && Preds(e.blocks, 0) == {} && 0 in s.blocks
    ensures WellFormedGraph(Function(s.allocas, Emit(s, Ret(v)).blocks))
  {
    var blocks := Emit(s, Ret(v)).blocks;
    assert blocks[s.cur][..|s.blocks[s.cur]|] == s.blocks[s.cur];
    assert Targets(blocks[s.cur]) == {} == Targets(s.blocks[s.cur]);
    forall x ensures Preds(blocks, x) == Preds(s.blocks, x) {}
    forall b | b in blocks ensures PhisMatch(blocks, b) {
      hide Preds;
      assert PhisMatch(s.blocks, b);
    }
    forall b, t | b in blocks && t in Targets(blocks[b]) ensures t in blocks {
      assert t < s.nextBlock;
    }
  }
}
