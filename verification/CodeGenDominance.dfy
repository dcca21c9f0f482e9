/** Registers: on every path through a generated function, a register has been set before it is used. */
module CodeGenDominance {
  import opened Wrappers
  import opened KaleidoscopeAst
  import opened Ir
  import opened CodeGenSpec
  import opened CodeGenFrame
  import opened CodeGenCfg

  function Temps(v: Operand): set<nat> {
    if v.Temp? then {v.id} else {}
  }

  function TempsOf(vs: seq<Operand>): set<nat> {
    if vs == [] then {} else Temps(vs[0]) + TempsOf(vs[1..])
  }

  /** The registers an instruction reads; a phi reads its operands at the end of its predecessors. */
  function Uses(i: Instr): set<nat> {
    match i
    case Store(v, _) => Temps(v)
    case Load(_, _) => {}
    case FBinary(_, _, a, b) => Temps(a) + Temps(b)
    case FCmpULT(_, a, b) => Temps(a) + Temps(b)
    case FCmpONE(_, a, b) => Temps(a) + Temps(b)
    case UIToFP(_, a) => Temps(a)
    case CallFn(_, _, args) => TempsOf(args)
    case Phi(_, _) => {}
    case Br(_) => {}
    case CondBr(v, _, _) => Temps(v)
    case Ret(v) => Temps(v)
  }

  function Sets(i: Instr): set<nat> {
    match i
    case Store(_, _) => {}
    case Br(_) => {}
    case CondBr(_, _, _) => {}
    case Ret(_) => {}
    case _ => {i.dst}
  }

  /** The registers a stretch of code sets. */
  function Defs(code: seq<Instr>): set<nat> {
    if code == [] then {} else Defs(code[..|code| - 1]) + Sets(code[|code| - 1])
  }

  type Available = map<nat, set<nat>>

  /** The registers set on every path to the end of block b, if av[b] are those set on every path to its start. */
  ghost function AtEnd(blocks: map<nat, seq<Instr>>, av: Available, b: nat): set<nat>
    requires b in blocks && b in av
  {
    av[b] + Defs(blocks[b])
  }

  ghost predicate Supported(code: seq<Instr>, start: set<nat>) {
    forall j :: 0 <= j < |code| ==> Uses(code[j]) <= start + Defs(code[..j])
  }

  ghost predicate PhisSupported(blocks: map<nat, seq<Instr>>, av: Available, b: nat)
    requires b in blocks
  {
    forall j, k :: 0 <= j < |blocks[b]| && blocks[b][j].Phi? && k in blocks[b][j].incoming ==>
      k.from in blocks && k.from in av && Temps(k.val) <= AtEnd(blocks, av, k.from)
  }

  ghost predicate EdgeSupported(blocks: map<nat, seq<Instr>>, av: Available, b: nat, t: nat)
  {
    b in blocks && b in av && t in Targets(blocks[b]) && t in av ==> av[t] <= AtEnd(blocks, av, b)
  }

  /** av says for each block which registers are set on every path to it. */
  ghost predicate Certifies(blocks: map<nat, seq<Instr>>, av: Available) {
    && av.Keys == blocks.Keys
    && (forall b :: b in blocks ==> Supported(blocks[b], av[b]) && PhisSupported(blocks, av, b))
    && (forall b, t :: EdgeSupported(blocks, av, b, t))
  }

  /** The registers that may be used at the insertion point. */
  ghost function Here(s: GenState, av: Available): set<nat> {
    if s.cur in s.blocks && s.cur in av then AtEnd(s.blocks, av, s.cur) else {}
  }

  ghost predicate CertGrows(s: GenState, av: Available, t: GenState, av2: Available) {
    && Certifies(t.blocks, av2)
    && (forall b :: b in av ==> b in av2 && av2[b] == av[b])
    && Here(s, av) <= Here(t, av2)
  }

  lemma CertTransitive(a: GenState, p: Available, b: GenState, q: Available, c: GenState, r: Available)
    requires CertGrows(a, p, b, q) && CertGrows(b, q, c, r)
    ensures CertGrows(a, p, c, r)
  {}

  /** Code may grow at the end of blocks, and blocks may be added, without taking support away. */
  ghost predicate Extends(blocks: map<nat, seq<Instr>>, av: Available, blocks2: map<nat, seq<Instr>>, av2: Available) {
    av.Keys == blocks.Keys && av2.Keys == blocks2.Keys && forall b :: b in blocks ==>
      && b in blocks2 && av2[b] == av[b] && IsPrefix(blocks[b], blocks2[b]) && PhiFree(blocks2[b], |blocks[b]|)
      && AtEnd(blocks, av, b) <= AtEnd(blocks2, av2, b)
  }

  lemma PhisCarry(blocks: map<nat, seq<Instr>>, av: Available, blocks2: map<nat, seq<Instr>>, av2: Available, b: nat)
    requires Extends(blocks, av, blocks2, av2) && b in blocks && PhisSupported(blocks, av, b)
    ensures PhisSupported(blocks2, av2, b)
  {
    hide AtEnd;
  }

  /** The certificate of every block, edges aside. */
  ghost predicate BlocksSupported(blocks: map<nat, seq<Instr>>, av: Available) {
    av.Keys == blocks.Keys && forall b :: b in blocks ==> Supported(blocks[b], av[b]) && PhisSupported(blocks, av, b)
  }

  lemma Appended(blocks: map<nat, seq<Instr>>, av: Available, cur: nat, i: Instr)
    requires BlocksSupported(blocks, av) && cur in blocks && !i.Phi? && Uses(i) <= AtEnd(blocks, av, cur)
    ensures var blocks2 := blocks[cur := blocks[cur] + [i]];
      BlocksSupported(blocks2, av) && AtEnd(blocks2, av, cur) == AtEnd(blocks, av, cur) + Sets(i)
  {
    hide Defs, Supported, PhisSupported, Extends;
    var blocks2 := blocks[cur := blocks[cur] + [i]];
    SupportedExtend(blocks[cur], i, av[cur]);
    AppendedExtends(blocks, av, cur, i);
    hide AtEnd;
    forall b | b in blocks2 ensures PhisSupported(blocks2, av, b) { PhisCarry(blocks, av, blocks2, av, b); }
  }

  lemma AppendedExtends(blocks: map<nat, seq<Instr>>, av: Available, cur: nat, i: Instr)
    requires av.Keys == blocks.Keys && cur in blocks && !i.Phi?
    ensures var blocks2 := blocks[cur := blocks[cur] + [i]];
      Extends(blocks, av, blocks2, av) && AtEnd(blocks2, av, cur) == AtEnd(blocks, av, cur) + Sets(i)
  {
    hide Sets;
    var code := blocks[cur] + [i];
    assert code[..|code| - 1] == blocks[cur];
  }

  lemma BlockAdded(blocks: map<nat, seq<Instr>>, av: Available, id: nat, start: set<nat>)
    requires BlocksSupported(blocks, av) && id !in blocks
    ensures BlocksSupported(blocks[id := []], av[id := start])
  {
    var blocks2, av2 := blocks[id := []], av[id := start];
    assert Extends(blocks, av, blocks2, av2);
    hide AtEnd, Defs;
    forall b | b in blocks2 ensures PhisSupported(blocks2, av2, b) {
      if b != id { PhisCarry(blocks, av, blocks2, av2, b); }
    }
  }

  lemma CertEmit(s: GenState, av: Available, i: Instr)
    requires HasInsertBlock(s) && Open(s.blocks[s.cur]) && Certifies(s.blocks, av) && Plain(i) && Uses(i) <= Here(s, av)
    ensures CertGrows(s, av, Emit(s, i), av) && Here(Emit(s, i), av) == Here(s, av) + Sets(i)
  {
    hide Supported, PhisSupported, Defs;
    var t := Emit(s, i);
    Appended(s.blocks, av, s.cur, i);
    assert Targets(t.blocks[s.cur]) == {};
    forall b, x ensures EdgeSupported(t.blocks, av, b, x) {
      assert EdgeSupported(s.blocks, av, b, x);
    }
  }

  lemma SupportedExtend(code: seq<Instr>, i: Instr, start: set<nat>)
    requires Supported(code, start) && Uses(i) <= start + Defs(code)
    ensures Supported(code + [i], start)
  {
    forall j | 0 <= j < |code + [i]| ensures Uses((code + [i])[j]) <= start + Defs((code + [i])[..j]) {
      assert (code + [i])[..j] == code[..j];
      if j == |code| { assert code[..j] == code; }
    }
  }

  lemma CertDefine(s: GenState, av: Available, i: Instr)
    requires Cfg(s) && Certifies(s.blocks, av) && Plain(i) && Uses(i) <= Here(s, av) && Sets(i) == {s.nextTemp}
    ensures var r := Define(s, i);
      CertGrows(s, av, r.s, av) && Here(r.s, av) == Here(s, av) + {s.nextTemp} && Temps(r.v.value) <= Here(r.s, av)
  {
    CertEmit(s, av, i);
  }

  /** Ending a block and beginning another, with start set on every path to the new one. */
  lemma CertEndBlock(s: GenState, av: Available, i: Instr, nextBlock: nat, id: nat, start: set<nat>)
    requires Cfg(s) && Certifies(s.blocks, av)
    requires i.IsTerminator() && Uses(i) <= Here(s, av) && id !in s.blocks
    requires forall x :: x in Targets([i]) && x in av ==> av[x] <= Here(s, av)
    requires id in Targets([i]) ==> start <= Here(s, av)
    requires forall b :: b in Preds(s.blocks, id) ==> start <= AtEnd(s.blocks, av, b)
    ensures var t := EndBlock(s, i, nextBlock, id);
      && Certifies(t.blocks, av[id := start]) && Here(t, av[id := start]) == start
      && s.cur in t.blocks && s.cur in av[id := start] && AtEnd(t.blocks, av[id := start], s.cur) == Here(s, av)
  {
    hide Supported, PhisSupported, Defs, Cfg;
    IsOpen(s);
    var t := EndBlock(s, i, nextBlock, id);
    var av2 := av[id := start];
    EndBlockPreds(s, i, nextBlock, id);
    Appended(s.blocks, av, s.cur, i);
    BlockAdded(s.blocks[s.cur := s.blocks[s.cur] + [i]], av, id, start);
    assert Defs([]) == {} by { NoDefs(); }
    assert Targets(s.blocks[s.cur]) == {} && Targets(t.blocks[s.cur]) == Targets([i]) && Targets(t.blocks[id]) == {};
    forall b, x ensures EdgeSupported(t.blocks, av2, b, x) {
      EndBlockEdge(s, av, t, av2, i, id, start, b, x);
    }
  }

  lemma NoDefs()
    ensures Defs([]) == {}
  {}

  lemma EndBlockEdge(s: GenState, av: Available, t: GenState, av2: Available, i: Instr, id: nat, start: set<nat>,
          b: nat, x: nat)
    requires HasInsertBlock(s) && Certifies(s.blocks, av) && id !in s.blocks && av2 == av[id := start]
    requires t.blocks == s.blocks[s.cur := s.blocks[s.cur] + [i]][id := []]
    requires AtEnd(t.blocks, av2, s.cur) == Here(s, av)
    requires Targets(t.blocks[s.cur]) == Targets([i]) && Targets(t.blocks[id]) == {} && Targets(s.blocks[s.cur]) == {}
    requires forall x :: x in Targets([i]) && x in av ==> av[x] <= Here(s, av)
    requires id in Targets([i]) ==> start <= Here(s, av)
    requires forall b :: b in Preds(s.blocks, id) ==> start <= AtEnd(s.blocks, av, b)
    ensures EdgeSupported(t.blocks, av2, b, x)
  {
    hide Supported, PhisSupported, Defs, Targets;
    assert EdgeSupported(s.blocks, av, b, x);
    if x == id && b != s.cur && b in s.blocks && x in Targets(s.blocks[b]) { assert b in Preds(s.blocks, id); }
  }

  /** Generating code for e keeps the certificate, and the value of e may be used where the code ends. */
  lemma {:induction false} GenCertified(e: Expr, s: GenState, av: Available) returns (av2: Available)
    requires Cfg(s) && Certifies(s.blocks, av) && Gen(e, s).v.Some?
    ensures var r := Gen(e, s); CertGrows(s, av, r.s, av2) && Temps(r.v.value) <= Here(r.s, av2)
    decreases e
  {
    hide Cfg, Certifies, Here, Emit;
    match e {
    case Number(_) => av2 := av; 
    case Variable(x) => av2 := VariableCertified(x, s, av);
    case Unary(op, a) =>
      av2 := GenCertified(a, s, av);
      var r := Gen(a, s);
      GenCfg(a, s);
      OneTemp(r.v.value);
      CertDefine(r.s, av2, CallFn(r.s.nextTemp, UnaryName(op), [r.v.value]));
      CertTransitive(s, av, r.s, av2, Gen(e, s).s, av2);
    case Binary(op, l, r) => av2 := BinaryCertified(e, s, av);
    case Call(f, args) =>
      av2 := ArgsCertified(e, 0, s, av);
      ArgsCfg(e, 0, s);
      var r := GenArgs(e, 0, s);
      CertDefine(r.s, av2, CallFn(r.s.nextTemp, f, r.vs.value));
      CertTransitive(s, av, r.s, av2, Gen(e, s).s, av2);
    case If(_, _, _) => av2 := IfCertified(e, s, av);
    case For(_, _, _, _, _) => av2 := ForCertified(e, s, av);
    case VarIn(_, _) => av2 := VarsCertified(e, 0, s, av); CertRenamed(s, av, GenVars(e, 0, s).s, av2, Gen(e, s).s);
    }
  }

  lemma CertRenamed(s: GenState, av: Available, t: GenState, av2: Available, u: GenState)
    requires CertGrows(s, av, t, av2) && u.blocks == t.blocks && u.cur == t.cur
    ensures CertGrows(s, av, u, av2) && Here(u, av2) == Here(t, av2)
  {}

  lemma OneTemp(v: Operand)
    ensures TempsOf([v]) == Temps(v)
  {
    assert [v][1..] == [];
  }

  lemma VariableCertified(x: string, s: GenState, av: Available) returns (av2: Available)
    requires Cfg(s) && Certifies(s.blocks, av) && GenVariable(x, s).v.Some?
    ensures var r := GenVariable(x, s); CertGrows(s, av, r.s, av2) && Temps(r.v.value) <= Here(r.s, av2)
  {
    av2 := av;
    CertDefine(s, av, Load(s.nextTemp, Lookup(s, x).value));
  }

  lemma {:induction false} BinaryCertified(e: Expr, s: GenState, av: Available) returns (av2: Available)
    requires Cfg(s) && Certifies(s.blocks, av) && e.Binary? && Gen(e, s).v.Some?
    ensures var r := Gen(e, s); CertGrows(s, av, r.s, av2) && Temps(r.v.value) <= Here(r.s, av2)
    decreases e, 0
  {
    hide Cfg, Certifies, Here, Emit, GenBinary;
    if e.op == '=' {
      av2 := GenCertified(e.rhs, s, av);
      var r := Gen(e.rhs, s);
      GenCfg(e.rhs, s);
      StoreCertified(r.s, av2, r.v.value, Lookup(r.s, e.lhs.name).value);
      CertTransitive(s, av, r.s, av2, Gen(e, s).s, av2);
    } else {
      var a := Gen(e.lhs, s);
      var b := Gen(e.rhs, a.s);
      var q := GenCertified(e.lhs, s, av);
      GenCfg(e.lhs, s);
      av2 := GenCertified(e.rhs, a.s, q);
      GenCfg(e.rhs, a.s);
      CertTransitive(s, av, a.s, q, b.s, av2);
      OperatorCertified(e.op, a.v.value, b.v.value, b.s, av2);
      CertTransitive(s, av, b.s, av2, Gen(e, s).s, av2);
    }
  }

  lemma StoreCertified(s: GenState, av: Available, v: Operand, slot: nat)
    requires Cfg(s) && Certifies(s.blocks, av) && Temps(v) <= Here(s, av)
    ensures var t := Emit(s, Store(v, slot)); CertGrows(s, av, t, av) && Here(t, av) == Here(s, av)
  {
    CertEmit(s, av, Store(v, slot));
  }

  lemma OperatorCertified(op: char, a: Operand, b: Operand, s: GenState, av: Available)
    requires Cfg(s) && Certifies(s.blocks, av) && GenBinary(op, a, b, s).v.Some?
    requires Temps(a) <= Here(s, av) && Temps(b) <= Here(s, av)
    ensures var r := GenBinary(op, a, b, s); CertGrows(s, av, r.s, av) && Temps(r.v.value) <= Here(r.s, av)
  {
    hide Cfg, Certifies, Here, Emit;
    match op
    case '+' => CertDefine(s, av, FBinary(s.nextTemp, FAdd, a, b));
    case '-' => CertDefine(s, av, FBinary(s.nextTemp, FSub, a, b));
    case '*' => CertDefine(s, av, FBinary(s.nextTemp, FMul, a, b));
    case '<' =>
      var t := Define(s, FCmpULT(s.nextTemp, a, b)).s;
      DefineCfg(s, FCmpULT(s.nextTemp, a, b));
      CertDefine(s, av, FCmpULT(s.nextTemp, a, b));
      CertDefine(t, av, UIToFP(t.nextTemp, Temp(s.nextTemp)));
      CertTransitive(s, av, t, av, GenBinary(op, a, b, s).s, av);
    case _ =>
      assert TempsOf([a, b]) == Temps(a) + Temps(b) by { assert [a, b][1..] == [b]; OneTemp(b); }
      CertDefine(s, av, CallFn(s.nextTemp, BinaryName(op), [a, b]));
  }

  lemma {:induction false} OptionCertified(e: Option<Expr>, default: Double, s: GenState, av: Available)
    returns (av2: Available)
    requires Cfg(s) && Certifies(s.blocks, av) && GenOption(e, default, s).v.Some?
    ensures var r := GenOption(e, default, s); CertGrows(s, av, r.s, av2) && Temps(r.v.value) <= Here(r.s, av2)
    decreases e
  {
    if e.Some? { av2 := GenCertified(e.value, s, av); } else { av2 := av; }
  }

  lemma {:induction false} ArgsCertified(e: Expr, i: nat, s: GenState, av: Available) returns (av2: Available)
    requires Cfg(s) && Certifies(s.blocks, av) && e.Call? && i <= |e.args| && GenArgs(e, i, s).vs.Some?
    ensures var r := GenArgs(e, i, s); CertGrows(s, av, r.s, av2) && TempsOf(r.vs.value) <= Here(r.s, av2)
    decreases e, |e.args| - i
  {
    hide Cfg, Certifies, Here;
    if i == |e.args| {
      av2 := av;
    } else {
      var a := Gen(e.args[i], s);
      var q := GenCertified(e.args[i], s, av);
      GenCfg(e.args[i], s);
      av2 := ArgsCertified(e, i + 1, a.s, q);
      CertTransitive(s, av, a.s, q, GenArgs(e, i, s).s, av2);
      var rest := GenArgs(e, i + 1, a.s);
      assert ([a.v.value] + rest.vs.value)[1..] == rest.vs.value;
    }
  }

  lemma {:induction false} VarsCertified(e: Expr, i: nat, s: GenState, av: Available) returns (av2: Available)
    requires Cfg(s) && Certifies(s.blocks, av) && e.VarIn? && i <= |e.vars| && GenVars(e, i, s).v.Some?
    ensures var r := GenVars(e, i, s); CertGrows(s, av, r.s, av2) && Temps(r.v.value) <= Here(r.s, av2)
    decreases e, |e.vars| - i
  {
    hide Cfg, Certifies, Here, DeclareVar;
    if i == |e.vars| {
      av2 := GenCertified(e.body, s, av);
    } else {
      var r := GenOption(e.vars[i].init, s.zero, s);
      var q := OptionCertified(e.vars[i].init, s.zero, s, av);
      OptionCfg(e.vars[i].init, s.zero, s);
      var d := DeclareVar(r.s, e.vars[i].name, r.v.value);
      DeclareCertified(r.s, q, e.vars[i].name, r.v.value);
      DeclareCfg(r.s, e.vars[i].name, r.v.value);
      av2 := VarsCertified(e, i + 1, d, q);
      CertTransitive(s, av, r.s, q, d, q);
      CertTransitive(s, av, d, q, GenVars(e, i, s).s, av2);
    }
  }

  lemma DeclareCertified(s: GenState, av: Available, x: string, v: Operand)
    requires Cfg(s) && Certifies(s.blocks, av) && Temps(v) <= Here(s, av)
    ensures CertGrows(s, av, DeclareVar(s, x, v), av)
  {
    CertEmit(NewAlloca(s, x), av, Store(v, |s.allocas|));
  }

  lemma {:induction false} IfCertified(e: Expr, s: GenState, av: Available) returns (av2: Available)
    requires Cfg(s) && Certifies(s.blocks, av) && e.If? && Gen(e, s).v.Some?
    ensures var r := Gen(e, s); CertGrows(s, av, r.s, av2) && Temps(r.v.value) <= Here(r.s, av2)
    decreases e, 1
  {
    hide Cfg, Certifies, Here, IfHead, IfElse, IfMerge, Grows, Linked, Filled, AtEnd, Preds, Gen;
    HasNumbers(s);
    var rc, h, rt, els, rf := IfParts(e, s);
    var n := rc.s.nextBlock;
    GenCfg(e.cond, s);
    HasNumbers(rc.s);
    HeadCfg(rc.s, rc.v.value);
    ArmEnds(rc.s, h, rt.s, els, rf.s);
    GenCfg(e.thn, h);
    ElseCfg(rc.s, h, rt.s);
    GenCfg(e.els, els);
    ElseKeeps(rc.s, h, rt.s);
    var q := GenCertified(e.cond, s, av);
    var start := HeadCertified(rc.s, q, rc.v.value);
    var qh := q[n := start];
    var qt := GenCertified(e.thn, h, qh);
    LinkedPreds(h, rt.s, n + 1);
    ElseCertified(rc.s, h, rt.s, qh, qt, start);
    var qe := qt[n + 1 := start];
    var qf := GenCertified(e.els, els, qe);
    av2 := MergeCertified(rc.s, h, rt.s, els, rf.s, qh, qt, qe, qf, start, rt.v.value, rf.v.value);
    IfCertGrows(s, av, rc.s, q, h, qh, rt.s, qt, els, qe, rf.s, qf, Gen(e, s).s, av2, start);
  }

  lemma IfCertGrows(s: GenState, av: Available, rc: GenState, q: Available, h: GenState, qh: Available, rt: GenState,
          qt: Available, els: GenState, qe: Available, rf: GenState, qf: Available, r: GenState, av2: Available,
          start: set<nat>)
    requires CertGrows(s, av, rc, q) && CertGrows(h, qh, rt, qt) && CertGrows(els, qe, rf, qf)
    requires q.Keys == rc.blocks.Keys && qt.Keys == rt.blocks.Keys && rc.nextBlock !in rc.blocks
    requires rc.nextBlock + 1 !in rt.blocks
    requires qh == q[rc.nextBlock := start] && qe == qt[rc.nextBlock + 1 := start] && Certifies(r.blocks, av2)
    requires rc.nextBlock + 2 !in rf.blocks && qf.Keys == rf.blocks.Keys
    requires forall b :: b in qf ==> b in av2 && av2[b] == qf[b]
    requires Here(rc, q) <= start && start <= Here(r, av2)
    ensures CertGrows(s, av, r, av2)
  {
    hide Certifies, Here;
  }

  lemma HeadCertified(s: GenState, av: Available, v: Operand) returns (start: set<nat>)
    requires Cfg(s) && Certifies(s.blocks, av) && Temps(v) <= Here(s, av)
    ensures var h := IfHead(s, v); var av2 := av[s.nextBlock := start];
      && Here(s, av) <= start && Certifies(h.blocks, av2) && Here(h, av2) == start
      && s.cur in h.blocks && s.cur in av2 && AtEnd(h.blocks, av2, s.cur) == start
      && av.Keys == s.blocks.Keys && s.nextBlock !in s.blocks
  {
    hide AtEnd, Certifies, Cfg, Grows, Linked, Filled, Preds;
    var n := s.nextBlock;
    var i := FCmpONE(s.nextTemp, v, Const(s.zero));
    var t := Define(s, i).s;
    var br := CondBr(Temp(s.nextTemp), n, n + 1);
    HasNumbers(s);
    DefineCfg(s, i);
    CertDefine(s, av, i);
    start := Here(t, av);
    CertKeys(s.blocks, av);
    assert Targets([br]) == {n, n + 1};
    FreshHasNoPreds(t, n);
    CertEndBlock(t, av, br, n + 3, n, start);
    assert EndBlock(t, br, n + 3, n) == IfHead(s, v);
  }

  lemma CertKeys(blocks: map<nat, seq<Instr>>, av: Available)
    requires Certifies(blocks, av)
    ensures av.Keys == blocks.Keys
  {}

  lemma ElseCertified(s: GenState, h: GenState, t: GenState, qh: Available, qt: Available, start: set<nat>)
    requires Cfg(t) && CertGrows(h, qh, t, qt) && s.nextBlock + 1 !in t.blocks && s.nextBlock + 2 !in t.blocks
    requires Preds(IfElse(t, s.nextBlock).blocks, s.nextBlock + 1) == {s.cur}
    requires s.cur in h.blocks && s.cur in qh && AtEnd(h.blocks, qh, s.cur) == start
    requires s.cur in t.blocks && t.cur != s.cur
    requires s.cur in IfElse(t, s.nextBlock).blocks && IfElse(t, s.nextBlock).blocks[s.cur] == h.blocks[s.cur]
    ensures var els := IfElse(t, s.nextBlock); var qe := qt[s.nextBlock + 1 := start];
      && Certifies(els.blocks, qe) && Here(els, qe) == start && t.cur in els.blocks && t.cur in qe
      && AtEnd(els.blocks, qe, t.cur) == Here(t, qt)
      && qt.Keys == t.blocks.Keys
  {
    hide Supported, PhisSupported, EdgeSupported, Cfg, Defs;
    var n := s.nextBlock;
    var i := Br(n + 2);
    IsOpen(t);
    var els := EndBlock(t, i, t.nextBlock, n + 1);
    assert els == IfElse(t, n);
    assert Preds(t.blocks, n + 1) == {s.cur} by {
      assert Targets([i]) == {n + 2};
      EndBlockPreds(t, i, t.nextBlock, n + 1);
    }
    assert AtEnd(t.blocks, qt, s.cur) == start;
    hide CertGrows, IfElse, Preds;
    CertEndBlock(t, qt, i, t.nextBlock, n + 1, start);
  }

  lemma MergeCertified(s: GenState, h: GenState, t: GenState, els: GenState, f: GenState, qh: Available,
          qt: Available, qe: Available, qf: Available, start: set<nat>, v: Operand, u: Operand)
    returns (av2: Available)
    requires CfgGrows(els, f) && CertGrows(els, qe, f, qf) && CertGrows(h, qh, t, qt)
    requires Preds(els.blocks, s.nextBlock + 2) == {t.cur} && s.nextBlock + 2 < els.nextBlock
    requires s.nextBlock + 2 !in f.blocks && t.cur != f.cur
    requires t.cur in els.blocks && t.cur in qe && t.cur != els.cur && AtEnd(els.blocks, qe, t.cur) == Here(t, qt)
    requires Here(h, qh) == start && Here(els, qe) == start && Temps(v) <= Here(t, qt) && Temps(u) <= Here(f, qf)
    ensures var r := IfMerge(f, s.nextBlock, v, t.cur, u);
      && Certifies(r.s.blocks, av2) && start <= Here(r.s, av2) && Temps(r.v.value) <= Here(r.s, av2)
      && qf.Keys == f.blocks.Keys && (forall b :: b in qf ==> b in av2 && av2[b] == qf[b])
  {
    hide Supported, PhisSupported, EdgeSupported, Cfg, IfMerge, Emit, Preds, Certifies, AtEnd, Linked, Filled;
    var n := s.nextBlock;
    ElseEndCfg(s, t, els, f);
    MergeBlockCertified(s, t, els, f, qe, qf, start);
    var m := StartBlock(Emit(f, Br(n + 2)), n + 2);
    av2 := qf[n + 2 := start];
    PhiCertified(m, av2, [Incoming(v, t.cur), Incoming(u, f.cur)]);
    MergeIsPhi(f, n, v, t.cur, u);
  }

  lemma MergeIsPhi(s: GenState, n: nat, v: Operand, from: nat, u: Operand)
    ensures var m := StartBlock(Emit(s, Br(n + 2)), n + 2);
      IfMerge(s, n, v, from, u) == Define(m, Phi(m.nextTemp, [Incoming(v, from), Incoming(u, s.cur)]))
  {}

  lemma MergeBlockCertified(s: GenState, t: GenState, els: GenState, f: GenState, qe: Available, qf: Available,
          start: set<nat>)
    requires CfgGrows(els, f) && CertGrows(els, qe, f, qf) && Preds(els.blocks, s.nextBlock + 2) == {t.cur}
    requires s.nextBlock + 2 < els.nextBlock && s.nextBlock + 2 !in f.blocks && t.cur != f.cur
    requires t.cur in els.blocks && t.cur in qe && t.cur != els.cur && start <= AtEnd(els.blocks, qe, t.cur)
    requires Here(els, qe) == start
    ensures var m := StartBlock(Emit(f, Br(s.nextBlock + 2)), s.nextBlock + 2); var qm := qf[s.nextBlock + 2 := start];
      && Certifies(m.blocks, qm) && Here(m, qm) == start && qf.Keys == f.blocks.Keys
      && f.cur in m.blocks && f.cur in qm && AtEnd(m.blocks, qm, f.cur) == Here(f, qf)
      && t.cur in m.blocks && t.cur in qm && AtEnd(m.blocks, qm, t.cur) == AtEnd(els.blocks, qe, t.cur)
  {
    hide AtEnd, Certifies, Cfg, Grows, Linked, Filled, Preds, Here;
    var n := s.nextBlock;
    var m := StartBlock(Emit(f, Br(n + 2)), n + 2);
    assert EndBlock(f, Br(n + 2), f.nextBlock, n + 2) == m;
    LinkedPreds(els, f, n + 2);
    assert Targets([Br(n + 2)]) == {n + 2};
    CertKeys(f.blocks, qf);
    ThenEndKept(s, t, els, f, qe, qf, start);
    CertEndBlock(f, qf, Br(n + 2), f.nextBlock, n + 2, start);
  }

  lemma ThenEndKept(s: GenState, t: GenState, els: GenState, f: GenState, qe: Available, qf: Available, start: set<nat>)
    requires Grows(els, f) && CertGrows(els, qe, f, qf) && s.nextBlock + 2 !in f.blocks && t.cur != f.cur
    requires t.cur in els.blocks && t.cur in qe && t.cur != els.cur
    ensures var m := StartBlock(Emit(f, Br(s.nextBlock + 2)), s.nextBlock + 2); var qm := qf[s.nextBlock + 2 := start];
      && t.cur in m.blocks && t.cur in qm && AtEnd(m.blocks, qm, t.cur) == AtEnd(els.blocks, qe, t.cur)
      && t.cur in f.blocks && t.cur in qf && AtEnd(f.blocks, qf, t.cur) == AtEnd(els.blocks, qe, t.cur)
  {
    hide Certifies, Here, Defs;
    assert SameBlock(els, f, t.cur);
  }

  lemma PhiCertified(s: GenState, av: Available, incoming: seq<Incoming>)
    requires HasInsertBlock(s) && s.blocks[s.cur] == [] && Certifies(s.blocks, av)
    requires forall k :: k in incoming ==>
      k.from in s.blocks && k.from in av && k.from != s.cur && Temps(k.val) <= AtEnd(s.blocks, av, k.from)
    ensures var r := Define(s, Phi(s.nextTemp, incoming));
      Certifies(r.s.blocks, av) && Here(r.s, av) == Here(s, av) + {s.nextTemp} && Temps(r.v.value) <= Here(r.s, av)
  {
    hide Supported, PhisSupported, EdgeSupported, Defs, AtEnd;
    var i := Phi(s.nextTemp, incoming);
    var t := Define(s, i).s;
    assert t.blocks == s.blocks[s.cur := [i]] by { assert [] + [i] == [i]; }
    FirstInstr(s.blocks, av, s.cur, i);
    forall b | b in t.blocks ensures Supported(t.blocks[b], av[b]) && PhisSupported(t.blocks, av, b) {
      PhiSupports(s.blocks, av, s.cur, i, b);
    }
    forall b, x ensures EdgeSupported(t.blocks, av, b, x) { PhiEdge(s.blocks, av, s.cur, i, b, x); }
  }

  /** A block with its first instruction. */
  lemma FirstInstr(blocks: map<nat, seq<Instr>>, av: Available, cur: nat, i: Instr)
    requires cur in blocks && blocks[cur] == [] && av.Keys == blocks.Keys
    ensures AtEnd(blocks[cur := [i]], av, cur) == AtEnd(blocks, av, cur) + Sets(i)
    ensures forall b :: b in blocks && b != cur ==> AtEnd(blocks[cur := [i]], av, b) == AtEnd(blocks, av, b)
  {
    hide Sets;
    assert [] + [i] == [i];
  }

  lemma PhiSupports(blocks: map<nat, seq<Instr>>, av: Available, cur: nat, i: Instr, b: nat)
    requires cur in blocks && blocks[cur] == [] && Certifies(blocks, av) && i.Phi? && b in blocks
    requires forall k :: k in i.incoming ==>
      k.from in blocks && k.from in av && k.from != cur && Temps(k.val) <= AtEnd(blocks, av, k.from)
    ensures Supported(blocks[cur := [i]][b], av[b]) && PhisSupported(blocks[cur := [i]], av, b)
  {
    hide AtEnd, EdgeSupported, Defs;
    assert Supported(blocks[b], av[b]) && PhisSupported(blocks, av, b);
    FirstInstr(blocks, av, cur, i);
  }

  lemma PhiEdge(blocks: map<nat, seq<Instr>>, av: Available, cur: nat, i: Instr, b: nat, x: nat)
    requires cur in blocks && blocks[cur] == [] && Certifies(blocks, av) && i.Phi?
    ensures EdgeSupported(blocks[cur := [i]], av, b, x)
  {
    hide AtEnd, Supported, PhisSupported;
    assert Targets([i]) == {};
    FirstInstr(blocks, av, cur, i);
    assert EdgeSupported(blocks, av, b, x);
  }

  lemma {:induction false} ForCertified(e: Expr, s: GenState, av: Available) returns (av2: Available)
    requires Cfg(s) && Certifies(s.blocks, av) && e.For? && Gen(e, s).v.Some?
    ensures var r := Gen(e, s); CertGrows(s, av, r.s, av2) && Temps(r.v.value) <= Here(r.s, av2)
    decreases e, 1
  {
    hide Cfg, Certifies, Here, Grows, Linked, Filled, ForHead, ForTail, AtEnd;
    HasNumbers(s);
    var a, rs, h, b, rb, rp, re := ForParts(e, s);
    GrownWellNumbered(rs.s, b);
    CertRenamed(s, av, s, av, a) by { }
    SlotCfg(s, e.varName);
    GenCfg(e.start, a);
    var q := GenCertified(e.start, a, av);
    LoopHeadCfg(rs.s, |s.allocas|, rs.v.value, e.varName);
    LoopHeadCertified(rs.s, q, |s.allocas|, rs.v.value);
    var qh := q[h.cur := Here(rs.s, q)];
    CertRenamed(rs.s, q, h, qh, b);
    var qb := GenCertified(e.body, b, qh);
    GenCfg(e.body, b);
    var qp := OptionCertified(e.step, s.one, rb.s, qb);
    OptionCfg(e.step, s.one, rb.s);
    var qe := GenCertified(e.end, rp.s, qp);
    GenCfg(e.end, rp.s);
    CertTransitive(b, qh, rb.s, qb, rp.s, qp);
    CertTransitive(b, qh, rp.s, qp, re.s, qe);
    CfgTransitive(b, rb.s, rp.s);
    CfgTransitive(b, rp.s, re.s);
    av2 := LoopTailCertified(b, qh, re.s, qe, |s.allocas|, rp.v.value, re.v.value);
    CertTransitive(a, av, rs.s, q, h, qh);
    LoopCertGrows(s, av, a, h, qh, b, Gen(e, s).s, av2, ForTail(re.s, |s.allocas|, rp.v.value, re.v.value, h.cur));
  }

  lemma LoopCertGrows(s: GenState, av: Available, a: GenState, h: GenState, qh: Available, b: GenState, r: GenState,
          av2: Available, tail: GenState)
    requires CertGrows(a, av, h, qh) && a.blocks == s.blocks && a.cur == s.cur && b.blocks == h.blocks && b.cur == h.cur
    requires CertGrows(b, qh, tail, av2) && r.blocks == tail.blocks && r.cur == tail.cur
    ensures CertGrows(s, av, r, av2)
  {
    hide Certifies, AtEnd;
  }

  lemma LoopHeadCertified(s: GenState, av: Available, slot: nat, v: Operand)
    requires Cfg(s) && Certifies(s.blocks, av) && Temps(v) <= Here(s, av)
    ensures var h := ForHead(s, slot, v); var av2 := av[h.cur := Here(s, av)];
      CertGrows(s, av, h, av2) && Here(h, av2) == Here(s, av)
  {
    hide Cfg, Certifies, AtEnd, Grows, Linked, Filled, Preds;
    var n := s.nextBlock;
    var t := Emit(s, Store(v, slot));
    HasNumbers(s);
    EmitCfg(s, Store(v, slot));
    CertEmit(s, av, Store(v, slot)) by { IsOpen(s); }
    FreshHasNoPreds(t, n);
    assert Targets([Br(n)]) == {n};
    CertKeys(s.blocks, av);
    CertEndBlock(t, av, Br(n), n + 1, n, Here(s, av));
    assert EndBlock(t, Br(n), n + 1, n) == ForHead(s, slot, v);
  }

  lemma LoopTailCertified(b: GenState, qb: Available, t: GenState, av: Available, slot: nat, step: Operand,
          end: Operand)
    returns (av2: Available)
    requires CfgGrows(b, t) && CertGrows(b, qb, t, av) && Temps(step) <= Here(t, av) && Temps(end) <= Here(t, av)
    requires b.cur in b.blocks && b.blocks[b.cur] == [] && b.cur in qb
    ensures CertGrows(b, qb, ForTail(t, slot, step, end, b.cur), av2)
  {
    hide Cfg, Certifies, AtEnd, Grows, Linked, Filled, Preds, Increment, Here;
    var i := Increment(t, slot, step);
    IncrementCfg(t, slot, step);
    IncrementCertified(t, av, slot, step);
    assert i.zero == t.zero by { SameConstants(t, i); }
    var c := Define(i, FCmpONE(i.nextTemp, end, Const(t.zero))).s;
    DefineCfg(i, FCmpONE(i.nextTemp, end, Const(t.zero)));
    CertDefine(i, av, FCmpONE(i.nextTemp, end, Const(t.zero)));
    CertTransitive(t, av, i, av, c, av);
    CertTransitive(b, qb, t, av, c, av);
    var br := CondBr(Temp(i.nextTemp), b.cur, c.nextBlock);
    assert Targets([br]) == {b.cur, c.nextBlock};
    LoopStart(b, qb, c, av);
    HasNumbers(c);
    CertKeys(c.blocks, av);
    FreshHasNoPreds(c, c.nextBlock);
    av2 := av[c.nextBlock := Here(c, av)];
    CertEndBlock(c, av, br, c.nextBlock + 1, c.nextBlock, Here(c, av));
    var u := EndBlock(c, br, c.nextBlock + 1, c.nextBlock);
    assert u == ForTail(t, slot, step, end, b.cur);
  }

  /** What is set where the loop block begins is still set where its round ends. */
  lemma LoopStart(b: GenState, qb: Available, c: GenState, av: Available)
    requires CertGrows(b, qb, c, av) && b.cur in b.blocks && b.blocks[b.cur] == [] && b.cur in qb
    ensures b.cur in av && av[b.cur] <= Here(c, av)
  {
    assert Here(b, qb) == qb[b.cur];
  }

  lemma IncrementCertified(s: GenState, av: Available, slot: nat, step: Operand)
    requires Cfg(s) && Certifies(s.blocks, av) && Temps(step) <= Here(s, av)
    ensures CertGrows(s, av, Increment(s, slot, step), av)
  {
    hide Cfg, Certifies, AtEnd, Grows, Linked, Filled, Emit, Here;
    var i := Load(s.nextTemp, slot);
    var l := Define(s, i).s;
    DefineCfg(s, i);
    CertDefine(s, av, i);
    var j := FBinary(l.nextTemp, FAdd, Temp(s.nextTemp), step);
    var a := Define(l, j).s;
    DefineCfg(l, j);
    CertDefine(l, av, j);
    CertTransitive(s, av, l, av, a, av);
    StoreCertified(a, av, Temp(s.nextTemp + 1), slot);
    CertTransitive(s, av, a, av, Increment(s, slot, step), av);
  }

  /** A path through the graph from the entry block. */
  ghost predicate IsPath(f: Function, path: seq<nat>) {
    && path != [] && path[0] == 0
    && (forall k :: 0 <= k < |path| ==> path[k] in f.blocks)
    && (forall k :: 0 <= k < |path| - 1 ==> path[k + 1] in Targets(f.blocks[path[k]]))
  }

  /** The registers set by the blocks of a path, all of them run to the end. */
  ghost function SetOn(f: Function, path: seq<nat>): set<nat>
    requires forall k :: 0 <= k < |path| ==> path[k] in f.blocks
  {
    if path == [] then {} else SetOn(f, path[..|path| - 1]) + Defs(f.blocks[path[|path| - 1]])
  }

  /** On every path, whatever an instruction reads has been set before: by an earlier block of the path, or
      earlier in its own block; and a phi reads from the block the path comes from what is set by then. */
  ghost predicate DefinedBeforeUse(f: Function) {
    forall path :: IsPath(f, path) ==> DefinedOn(f, path)
  }

  ghost predicate DefinedOn(f: Function, path: seq<nat>)
    requires IsPath(f, path)
  {
    var b := path[|path| - 1];
    var before := path[..|path| - 1];
    && (forall j :: 0 <= j < |f.blocks[b]| ==> Uses(f.blocks[b][j]) <= SetOn(f, before) + Defs(f.blocks[b][..j]))
    && (|path| > 1 ==>
          forall j, k ::
            && 0 <= j < |f.blocks[b]| && f.blocks[b][j].Phi?
            && k in f.blocks[b][j].incoming && k.from == path[|path| - 2] ==>
            Temps(k.val) <= SetOn(f, before))
  }

  lemma {:induction false} CertifiedPath(f: Function, av: Available, path: seq<nat>)
    requires Certifies(f.blocks, av) && 0 in av && av[0] == {} && IsPath(f, path)
    ensures av[path[|path| - 1]] <= SetOn(f, path[..|path| - 1])
    decreases |path|
  {
    if |path| > 1 {
      var before := path[..|path| - 1];
      assert forall k :: 0 <= k < |before| ==> before[k] == path[k];
      CertifiedPath(f, av, before);
      assert EdgeSupported(f.blocks, av, path[|path| - 2], path[|path| - 1]);
    }
  }

  lemma CertifiedDefined(f: Function, av: Available, path: seq<nat>)
    requires Certifies(f.blocks, av) && 0 in av && av[0] == {} && IsPath(f, path)
    ensures DefinedOn(f, path)
  {
    CertifiedPath(f, av, path);
    var b := path[|path| - 1];
    assert Supported(f.blocks[b], av[b]) && PhisSupported(f.blocks, av, b);
    if |path| > 1 {
      var before := path[..|path| - 1];
      assert forall k :: 0 <= k < |before| ==> before[k] == path[k];
      CertifiedPath(f, av, before);
    }
  }

  lemma {:induction false} ParamsCertified(params: seq<string>, i: nat, s: GenState, av: Available)
    requires Cfg(s) && Certifies(s.blocks, av) && i <= |params|
    ensures CertGrows(s, av, GenParams(params, i, s), av)
    decreases |params| - i
  {
    hide Cfg, Certifies, Here, DeclareVar;
    if i == |params| {
    } else {
      var d := DeclareVar(s, params[i], Param(i));
      DeclareCfg(s, params[i], Param(i));
      DeclareCertified(s, av, params[i], Param(i));
      ParamsCertified(params, i + 1, d, av);
      CertTransitive(s, av, d, av, GenParams(params, i, s), av);
    }
  }

  /** In every generated function each definition dominates its uses. */
  lemma GeneratedDefinedBeforeUse(params: seq<string>, body: Expr, funcs: map<string, nat>, zero: Double, one: Double)
    requires GenFunction(params, body, funcs, zero, one).Some?
    ensures DefinedBeforeUse(GenFunction(params, body, funcs, zero, one).value)
  {
    var e := EmptyFunction(funcs, zero, one);
    var s := GenParams(params, 0, e);
    var r := Gen(body, s);
    var f := GenFunction(params, body, funcs, zero, one).value;
    var start: Available := map[0 := {}];
    hide Cfg, Certifies, Here, Emit, GenParams, DefinedOn, EmptyFunction;
    EmptyCertified(funcs, zero, one);
    ParamsCfg(params, 0, e);
    ParamsCertified(params, 0, e, start);
    var av := GenCertified(body, s, start);
    GenCfg(body, s);
    CertTransitive(e, start, s, start, r.s, av);
    RetCertified(r.s, av, r.v.value);
    EntryIsFirst(s, start, r.s, av);
    forall path | IsPath(f, path) ensures DefinedOn(f, path) { CertifiedDefined(f, av, path); }
  }

  lemma EmptyCertified(funcs: map<string, nat>, zero: Double, one: Double)
    ensures var e := EmptyFunction(funcs, zero, one);
      Cfg(e) && Certifies(e.blocks, map[0 := {}])
  {}

  /** Nothing is set on the way to the entry block. */
  lemma EntryIsFirst(s: GenState, start: Available, t: GenState, av: Available)
    requires CertGrows(s, start, t, av) && start == map[0 := {}]
    ensures 0 in av && av[0] == {}
  {}

  lemma RetCertified(s: GenState, av: Available, v: Operand)
    requires Cfg(s) && Certifies(s.blocks, av) && Temps(v) <= Here(s, av)
    ensures Certifies(Emit(s, Ret(v)).blocks, av)
  {
    hide Supported, PhisSupported, Defs, Cfg;
    var t := Emit(s, Ret(v));
    IsOpen(s);
    Appended(s.blocks, av, s.cur, Ret(v));
    assert Targets(t.blocks[s.cur]) == {};
    forall b, x ensures EdgeSupported(t.blocks, av, b, x) { assert EdgeSupported(s.blocks, av, b, x); }
  }
}
