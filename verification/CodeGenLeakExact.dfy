/** The code for an expression is that of the expression with its var lists taken apart exactly if no name is used that
    has leaked before. The two codes always have the same shape, and once they differ they stay different. */
module CodeGenLeakExact {
  import opened Wrappers
  import opened KaleidoscopeAst
  import opened Ir
  import opened CodeGenSpec
  import opened CodeGenFrame
  import opened CodeGenScope
  import opened CodeGenLeaves
  import opened CodeGenLeak

  /** Two states with code of the same shape: they may differ in instructions and in the name table. */
  ghost predicate SameShape(s: GenState, t: GenState) {
    && t.funcs == s.funcs && t.zero == s.zero && t.one == s.one
    && t.cur == s.cur && t.nextBlock == s.nextBlock && t.nextTemp == s.nextTemp && t.allocas == s.allocas
    && t.blocks.Keys == s.blocks.Keys
    && forall b :: b in s.blocks ==> |t.blocks[b]| == |s.blocks[b]|
  }

  ghost predicate Alike(s: GenState, t: GenState) {
    SameShape(s, t) && WellNumbered(s) && SlotsExist(s) && SlotsExist(t)
  }

  ghost predicate Agree(s: GenState, t: GenState, names: set<string>) {
    forall x :: x in names ==> Lookup(t, x) == Lookup(s, x)
  }

  /** From s and t on the shape was kept, and no difference in the code was lost. */
  ghost predicate Reflects(s: GenState, t: GenState, s2: GenState, t2: GenState) {
    SameShape(s2, t2) && (SameCode(s2, t2) ==> SameCode(s, t))
  }

  /** Besides, the code tells if a leaked name was used, or a name on which the tables did not agree. */
  ghost predicate Tells(s: GenState, t: GenState, s2: GenState, t2: GenState, unused: bool, uses: set<string>) {
    SameShape(s2, t2) && (SameCode(s2, t2) ==> SameCode(s, t) && unused && Agree(s, t, uses))
  }

  lemma AlikeNumbered(s: GenState, t: GenState)
    requires Alike(s, t)
    ensures WellNumbered(s) && WellNumbered(t)
  {}

  lemma SameTables(s: GenState, t: GenState, s2: GenState, t2: GenState)
    requires Alike(s, t) && SameShape(s2, t2) && WellNumbered(s2) && |s.allocas| <= |s2.allocas|
    requires s2.named == s.named && t2.named == t.named
    ensures Alike(s2, t2)
    ensures forall names :: Agree(s2, t2, names) <==> Agree(s, t, names)
  {
    forall x ensures Lookup(s2, x) == Lookup(s, x) && Lookup(t2, x) == Lookup(t, x) {}
  }

  lemma NamesAfterBoth(e: Expr, s: GenState, t: GenState)
    requires Alike(s, t) && Gen(e, s).v.Some? && Gen(Nest(e), t).v.Some?
    ensures WellNumbered(Gen(e, s).s) && Rebound(s, Gen(e, s).s, Leak(e)) && Rebound(t, Gen(Nest(e), t).s, {})
  {
    hide Gen, Leak, Nest, Rebound;
    AlikeNumbered(s, t);
    NestDistinct(e);
    DistinctBindersNeverLeak(Nest(e));
    GenGrows(e, s);
    NamesAfterGen(e, s);
    NamesAfterGen(Nest(e), t);
  }

  lemma AlikeAfter(e: Expr, s: GenState, t: GenState)
    requires Alike(s, t) && Gen(e, s).v.Some? && Gen(Nest(e), t).v.Some? && SameShape(Gen(e, s).s, Gen(Nest(e), t).s)
    ensures Alike(Gen(e, s).s, Gen(Nest(e), t).s)
  {
    hide Gen, Nest, SameShape, WellNumbered;
    NamesAfterBoth(e, s, t);
  }

  /** Where the tables agree after e they agreed before, and e did not leak. */
  lemma AgreedBefore(e: Expr, s: GenState, t: GenState, names: set<string>)
    requires Alike(s, t) && Gen(e, s).v.Some? && Gen(Nest(e), t).v.Some?
    requires Agree(Gen(e, s).s, Gen(Nest(e), t).s, names)
    ensures Agree(s, t, names) && Leak(e) !! names
  {
    var r, q := Gen(e, s).s, Gen(Nest(e), t).s;
    NamesAfterBoth(e, s, t);
    hide Gen, Nest, Leak, WellNumbered;
    forall x | x in names ensures Lookup(t, x) == Lookup(s, x) && x !in Leak(e) {
      assert Lookup(q, x) == Lookup(t, x) && Lookup(q, x) == Lookup(r, x);
    }
  }

  lemma OptionAlikeAfter(e: Option<Expr>, default: Double, s: GenState, t: GenState)
    requires Alike(s, t) && GenOption(e, default, s).v.Some? && GenOption(NestOption(e), default, t).v.Some?
    requires SameShape(GenOption(e, default, s).s, GenOption(NestOption(e), default, t).s)
    ensures Alike(GenOption(e, default, s).s, GenOption(NestOption(e), default, t).s)
  {
    if e.Some? { AlikeAfter(e.value, s, t); }
  }

  lemma OptionAgreedBefore(e: Option<Expr>, default: Double, s: GenState, t: GenState, names: set<string>)
    requires Alike(s, t) && GenOption(e, default, s).v.Some? && GenOption(NestOption(e), default, t).v.Some?
    requires Agree(GenOption(e, default, s).s, GenOption(NestOption(e), default, t).s, names)
    ensures Agree(s, t, names) && LeakOption(e) !! names
  {
    if e.Some? { AgreedBefore(e.value, s, t, names); }
  }

  // ----- Single steps -----

  lemma EmitReflects(s: GenState, t: GenState, i: Instr, j: Instr)
    requires SameShape(s, t) && HasInsertBlock(s)
    ensures Reflects(s, t, Emit(s, i), Emit(t, j)) && (SameCode(Emit(s, i), Emit(t, j)) ==> i == j)
  {
    var s2, t2 := Emit(s, i), Emit(t, j);
    if SameCode(s2, t2) {
      var c := s.cur;
      assert s2.blocks[c] == t2.blocks[c];
      assert s.blocks[c] == s2.blocks[c][..|s.blocks[c]|] == t2.blocks[c][..|t.blocks[c]|] == t.blocks[c];
      assert i == s2.blocks[c][|s.blocks[c]|] == t2.blocks[c][|t.blocks[c]|] == j;
      assert s.blocks == t.blocks by {
        forall b | b in s.blocks && b != c ensures s.blocks[b] == t.blocks[b] {
          assert s2.blocks[b] == s.blocks[b] && t2.blocks[b] == t.blocks[b];
        }
      }
    }
  }

  lemma DefineReflects(s: GenState, t: GenState, i: Instr, j: Instr)
    requires SameShape(s, t) && HasInsertBlock(s)
    ensures Reflects(s, t, Define(s, i).s, Define(t, j).s) && (SameCode(Define(s, i).s, Define(t, j).s) ==> i == j)
    ensures HasInsertBlock(Define(s, i).s) && Define(t, j).v == Define(s, i).v
  {
    EmitReflects(s, t, i, j);
  }

  /** An unused block is begun, and block numbers are given out. */
  lemma StartReflects(s: GenState, t: GenState, next: nat, id: nat)
    requires SameShape(s, t) && id !in s.blocks
    ensures Reflects(s, t, StartBlock(s.(nextBlock := next), id), StartBlock(t.(nextBlock := next), id))
    ensures HasInsertBlock(StartBlock(s.(nextBlock := next), id))
  {
    var s2, t2 := StartBlock(s.(nextBlock := next), id), StartBlock(t.(nextBlock := next), id);
    if SameCode(s2, t2) {
      assert s.blocks == t.blocks by {
        forall b | b in s.blocks ensures s.blocks[b] == t.blocks[b] { assert s2.blocks[b] == t2.blocks[b]; }
      }
    }
  }

  lemma ReflectsTransitive(a: GenState, p: GenState, b: GenState, q: GenState, c: GenState, r: GenState)
    requires Reflects(a, p, b, q) && Reflects(b, q, c, r)
    ensures Reflects(a, p, c, r)
  {}

  lemma TellsThrough(a: GenState, p: GenState, b: GenState, q: GenState, c: GenState, r: GenState, unused: bool,
          uses: set<string>)
    requires Tells(a, p, b, q, unused, uses) && Reflects(b, q, c, r)
    ensures Tells(a, p, c, r, unused, uses)
  {}

  lemma VariableTells(x: string, s: GenState, t: GenState)
    requires SameShape(s, t) && HasInsertBlock(s) && GenVariable(x, s).v.Some? && GenVariable(x, t).v.Some?
    ensures GenVariable(x, t).v == GenVariable(x, s).v
    ensures Tells(s, t, GenVariable(x, s).s, GenVariable(x, t).s, true, {x})
  {
    DefineReflects(s, t, Load(s.nextTemp, Lookup(s, x).value), Load(t.nextTemp, Lookup(t, x).value));
  }

  lemma AssignTells(x: string, v: Operand, s: GenState, t: GenState)
    requires SameShape(s, t) && HasInsertBlock(s) && GenAssign(x, v, s).v.Some? && GenAssign(x, v, t).v.Some?
    ensures GenAssign(x, v, t).v == GenAssign(x, v, s).v
    ensures Tells(s, t, GenAssign(x, v, s).s, GenAssign(x, v, t).s, true, {x})
  {
    EmitReflects(s, t, Store(v, Lookup(s, x).value), Store(v, Lookup(t, x).value));
  }

  lemma CallReflects(f: string, vs: seq<Operand>, s: GenState, t: GenState)
    requires SameShape(s, t) && HasInsertBlock(s) && GenCall(f, vs, s).v.Some?
    ensures GenCall(f, vs, t).v == GenCall(f, vs, s).v
    ensures Reflects(s, t, GenCall(f, vs, s).s, GenCall(f, vs, t).s)
  {
    DefineReflects(s, t, CallFn(s.nextTemp, f, vs), CallFn(t.nextTemp, f, vs));
  }

  lemma OperatorReflects(op: char, a: Operand, b: Operand, s: GenState, t: GenState)
    requires SameShape(s, t) && HasInsertBlock(s) && GenBinary(op, a, b, s).v.Some?
    ensures GenBinary(op, a, b, t).v == GenBinary(op, a, b, s).v
    ensures Reflects(s, t, GenBinary(op, a, b, s).s, GenBinary(op, a, b, t).s)
  {
    hide SameCode, Emit, GenCall, HasInsertBlock;
    match op
    case '+' => DefineReflects(s, t, FBinary(s.nextTemp, FAdd, a, b), FBinary(t.nextTemp, FAdd, a, b));
    case '-' => DefineReflects(s, t, FBinary(s.nextTemp, FSub, a, b), FBinary(t.nextTemp, FSub, a, b));
    case '*' => DefineReflects(s, t, FBinary(s.nextTemp, FMul, a, b), FBinary(t.nextTemp, FMul, a, b));
    case '<' =>
      var i := FCmpULT(s.nextTemp, a, b);
      DefineReflects(s, t, i, i);
      var j := UIToFP(s.nextTemp + 1, Temp(s.nextTemp));
      DefineReflects(Define(s, i).s, Define(t, i).s, j, j);
    case _ => CallReflects(BinaryName(op), [a, b], s, t);
  }

  lemma HeadReflects(s: GenState, t: GenState, v: Operand)
    requires SameShape(s, t) && WellNumbered(s)
    ensures Reflects(s, t, IfHead(s, v), IfHead(t, v))
    ensures IfHead(s, v).named == s.named && IfHead(t, v).named == t.named && IfHead(s, v).allocas == s.allocas
  {
    hide SameCode, Emit;
    var i := FCmpONE(s.nextTemp, v, Const(s.zero));
    var c, d, n := Define(s, i).s, Define(t, i).s, s.nextBlock;
    HeadTables(s, t, v);
    DefineReflects(s, t, i, i);
    var j := CondBr(Temp(s.nextTemp), n, n + 1);
    EmitReflects(c, d, j, j);
    StartReflects(Emit(c, j), Emit(d, j), n + 3, n);
  }

  lemma HeadTables(s: GenState, t: GenState, v: Operand)
    requires SameShape(s, t) && WellNumbered(s)
    ensures IfHead(s, v).named == s.named && IfHead(t, v).named == t.named && IfHead(s, v).allocas == s.allocas
    ensures var c := Define(s, FCmpONE(s.nextTemp, v, Const(s.zero))).s;
      c.nextBlock == s.nextBlock && s.nextBlock !in c.blocks
      && forall j :: s.nextBlock !in Emit(c, j).blocks
  {}

  lemma ElseReflects(s: GenState, t: GenState, n: nat)
    requires SameShape(s, t) && HasInsertBlock(s) && n + 1 !in s.blocks
    ensures Reflects(s, t, IfElse(s, n), IfElse(t, n))
    ensures IfElse(s, n).named == s.named && IfElse(t, n).named == t.named && IfElse(s, n).allocas == s.allocas
  {
    EmitReflects(s, t, Br(n + 2), Br(n + 2));
    StartReflects(Emit(s, Br(n + 2)), Emit(t, Br(n + 2)), s.nextBlock, n + 1);
  }

  lemma MergeReflects(s: GenState, t: GenState, n: nat, v: Operand, from: nat, u: Operand)
    requires SameShape(s, t) && HasInsertBlock(s) && n + 2 !in s.blocks
    ensures IfMerge(t, n, v, from, u).v == IfMerge(s, n, v, from, u).v
    ensures Reflects(s, t, IfMerge(s, n, v, from, u).s, IfMerge(t, n, v, from, u).s)
  {
    EmitReflects(s, t, Br(n + 2), Br(n + 2));
    StartReflects(Emit(s, Br(n + 2)), Emit(t, Br(n + 2)), s.nextBlock, n + 2);
    var a, b := StartBlock(Emit(s, Br(n + 2)), n + 2), StartBlock(Emit(t, Br(n + 2)), n + 2);
    var i := Phi(s.nextTemp, [Incoming(v, from), Incoming(u, s.cur)]);
    DefineReflects(a, b, i, i);
  }

  lemma ForHeadReflects(s: GenState, t: GenState, slot: nat, v: Operand)
    requires SameShape(s, t) && WellNumbered(s)
    ensures Reflects(s, t, ForHead(s, slot, v), ForHead(t, slot, v))
    ensures ForHead(s, slot, v).named == s.named && ForHead(t, slot, v).named == t.named
    ensures ForHead(s, slot, v).allocas == s.allocas
  {
    var i, n := Store(v, slot), s.nextBlock;
    EmitReflects(s, t, i, i);
    EmitReflects(Emit(s, i), Emit(t, i), Br(n), Br(n));
    StartReflects(Emit(Emit(s, i), Br(n)), Emit(Emit(t, i), Br(n)), n + 1, n);
  }

  lemma SameNumbers(s: GenState, t: GenState)
    requires SameShape(s, t)
    ensures t.nextTemp == s.nextTemp && t.nextBlock == s.nextBlock && t.cur == s.cur && t.allocas == s.allocas
    ensures t.zero == s.zero && t.one == s.one && t.funcs == s.funcs
  {}

  lemma IncrementReflects(s: GenState, t: GenState, slot: nat, step: Operand)
    requires SameShape(s, t) && HasInsertBlock(s)
    ensures Reflects(s, t, Increment(s, slot, step), Increment(t, slot, step))
    ensures HasInsertBlock(Increment(s, slot, step))
  {
    var i, j := Load(s.nextTemp, slot), FBinary(s.nextTemp + 1, FAdd, Temp(s.nextTemp), step);
    var k := Store(Temp(s.nextTemp + 1), slot);
    hide SameCode, Emit, SameShape;
    assert t.nextTemp == s.nextTemp by { SameNumbers(s, t); }
    DefineReflects(s, t, i, i);
    DefineReflects(Define(s, i).s, Define(t, i).s, j, j);
    EmitReflects(NextValue(s, slot, step), NextValue(t, slot, step), k, k);
  }

  lemma TailReflects(s: GenState, t: GenState, slot: nat, step: Operand, end: Operand, loop: nat)
    requires SameShape(s, t) && WellNumbered(s)
    ensures Reflects(s, t, ForTail(s, slot, step, end, loop), ForTail(t, slot, step, end, loop))
  {
    IncrementReflects(s, t, slot, step);
    IncrementGrows(s, slot, step);
    hide Increment;
    var a, b := Increment(s, slot, step), Increment(t, slot, step);
    var i, n := FCmpONE(a.nextTemp, end, Const(s.zero)), a.nextBlock;
    DefineReflects(a, b, i, i);
    var j := CondBr(Temp(a.nextTemp), loop, n);
    var c, d := Define(a, i).s, Define(b, i).s;
    EmitReflects(c, d, j, j);
    StartReflects(Emit(c, j), Emit(d, j), n + 1, n);
  }

  /** The name is bound to the same new slot in both tables. */
  lemma BoundAlike(s: GenState, t: GenState, x: string, slot: nat)
    requires Alike(s, t) && slot < |s.allocas|
    ensures Alike(Bind(s, x, slot), Bind(t, x, slot))
    ensures forall names :: Agree(Bind(s, x, slot), Bind(t, x, slot), names) ==> Agree(s, t, names - {x})
    ensures SameCode(Bind(s, x, slot), Bind(t, x, slot)) ==> SameCode(s, t)
  {
    var b, d := Bind(s, x, slot), Bind(t, x, slot);
    forall y ensures Lookup(b, y) == (if y == x then Some(slot) else Lookup(s, y)) {}
    forall y ensures Lookup(d, y) == (if y == x then Some(slot) else Lookup(t, y)) {}
  }

  lemma DeclareReflects(s: GenState, t: GenState, x: string, v: Operand)
    requires Alike(s, t)
    ensures Alike(DeclareVar(s, x, v), DeclareVar(t, x, v))
    ensures Reflects(s, t, DeclareVar(s, x, v), DeclareVar(t, x, v))
    ensures forall names :: Agree(DeclareVar(s, x, v), DeclareVar(t, x, v), names) ==> Agree(s, t, names - {x})
  {
    var i := Store(v, |s.allocas|);
    var a, b := NewAlloca(s, x), NewAlloca(t, x);
    EmitReflects(a, b, i, i);
    SameTables(s, t, Emit(a, i), Emit(b, i));
    BoundAlike(Emit(a, i), Emit(b, i), x, |s.allocas|);
  }

  // ----- Whole expressions -----

  /** Both codes have the same shape and compute the same operand; and if they are the same, they were so before, no
      leaked name was used, and the tables agreed on the names used. */
  lemma {:induction false} CodeTells(e: Expr, s: GenState, t: GenState)
    requires Alike(s, t) && Gen(e, s).v.Some? && Gen(Nest(e), t).v.Some?
    ensures Gen(Nest(e), t).v == Gen(e, s).v
    ensures Tells(s, t, Gen(e, s).s, Gen(Nest(e), t).s, LeaksUnused(e), Uses(e))
    decreases e
  {
    hide GenCall, GenVariable, GenBinary, RestoreNames, SlotsExist, SameShape, SameCode;
    AlikeNumbered(s, t);
    match e
    case Number(_) =>
    case Variable(x) => VariableTells(x, s, t);
    case Unary(op, a) =>
      CodeTells(a, s, t);
      var r, q := Gen(a, s), Gen(Nest(a), t);
      TellsAlike(a, s, t);
      CallReflects(UnaryName(op), [r.v.value], r.s, q.s);
    case Binary(_, _, _) => BinaryTells(e, s, t);
    case Call(f, _) =>
      ArgsTell(e, 0, s, t);
      CallReflects(f, GenArgs(e, 0, s).vs.value, GenArgs(e, 0, s).s, GenArgs(Nest(e), 0, t).s);
    case If(_, _, _) => IfTells(e, s, t);
    case For(_, _, _, _, _) => ForTells(e, s, t);
    case VarIn(vars, body) =>
      if vars == [] { CodeTells(body, s, t); } else { VarsTell(e, 0, s, t); }
      TellsRestored(e, s, t);
  }

  /** The end of a var list changes only the name table. */
  lemma TellsRestored(e: Expr, s: GenState, t: GenState)
    requires e.VarIn? && Gen(e, s).v.Some? && Gen(Nest(e), t).v.Some?
    requires var q := if e.vars == [] then Gen(Nest(e.body), t) else Gen(NestVars(e, 0), t);
      Tells(s, t, GenVars(e, 0, s).s, q.s, LeaksUnused(e), Uses(e)) && q.v == GenVars(e, 0, s).v
    ensures Gen(Nest(e), t).v == Gen(e, s).v
    ensures Tells(s, t, Gen(e, s).s, Gen(Nest(e), t).s, LeaksUnused(e), Uses(e))
  {
    hide LeaksUnused, Uses, RestoreNames, Agree;
  }

  lemma {:induction false} OptionTells(e: Option<Expr>, default: Double, s: GenState, t: GenState)
    requires Alike(s, t) && GenOption(e, default, s).v.Some? && GenOption(NestOption(e), default, t).v.Some?
    ensures GenOption(NestOption(e), default, t).v == GenOption(e, default, s).v
    ensures Tells(s, t, GenOption(e, default, s).s, GenOption(NestOption(e), default, t).s,
      OptionLeaksUnused(e), UsesOption(e))
    decreases e
  {
    if e.Some? { CodeTells(e.value, s, t); }
  }

  /** One expression after another. */
  lemma TellsBoth(e: Expr, s: GenState, t: GenState, s2: GenState, t2: GenState, unused: bool, uses: set<string>)
    requires Alike(s, t) && Gen(e, s).v.Some? && Gen(Nest(e), t).v.Some?
    requires Tells(s, t, Gen(e, s).s, Gen(Nest(e), t).s, LeaksUnused(e), Uses(e))
    requires Tells(Gen(e, s).s, Gen(Nest(e), t).s, s2, t2, unused, uses)
    ensures Tells(s, t, s2, t2, LeaksUnused(e) && unused && Leak(e) !! uses, Uses(e) + uses)
  {
    hide Alike, Gen, Nest, LeaksUnused, Leak, Uses;
    if SameCode(s2, t2) { AgreedBefore(e, s, t, uses); }
  }

  lemma {:induction false} BinaryTells(e: Expr, s: GenState, t: GenState)
    requires Alike(s, t) && e.Binary? && Gen(e, s).v.Some? && Gen(Nest(e), t).v.Some?
    ensures Gen(Nest(e), t).v == Gen(e, s).v
    ensures Tells(s, t, Gen(e, s).s, Gen(Nest(e), t).s, LeaksUnused(e), Uses(e))
    decreases e, 0
  {
    hide GenAssign, GenBinary, Alike, Tells;
    if e.op == '=' {
      assert e.lhs.Variable?;
      NestKind(e.lhs);
      hide LeaksUnused, Uses, Nest;
      CodeTells(e.rhs, s, t);
      var r, q := Gen(e.rhs, s), Gen(Nest(e.rhs), t);
      TellsAlike(e.rhs, s, t);
      NestedAssign(e, t);
      AssignTells(e.lhs.name, r.v.value, r.s, q.s);
      TellsBoth(e.rhs, s, t, Gen(e, s).s, Gen(Nest(e), t).s, true, {e.lhs.name});
      AssignUnused(e);
    } else {
      CodeTells(e.lhs, s, t);
      TellsAlike(e.lhs, s, t);
      var a, p := Gen(e.lhs, s), Gen(Nest(e.lhs), t);
      CodeTells(e.rhs, a.s, p.s);
      TellsAlike(e.rhs, a.s, p.s);
      var b, q := Gen(e.rhs, a.s), Gen(Nest(e.rhs), p.s);
      TellsBoth(e.lhs, s, t, b.s, q.s, LeaksUnused(e.rhs), Uses(e.rhs));
      OperatorReflects(e.op, a.v.value, b.v.value, b.s, q.s);
      TellsThrough(s, t, b.s, q.s, Gen(e, s).s, Gen(Nest(e), t).s,
        LeaksUnused(e.lhs) && LeaksUnused(e.rhs) && Leak(e.lhs) !! Uses(e.rhs), Uses(e.lhs) + Uses(e.rhs));
    }
  }

  lemma TellsAlike(e: Expr, s: GenState, t: GenState)
    requires Alike(s, t) && Gen(e, s).v.Some? && Gen(Nest(e), t).v.Some?
    requires Tells(s, t, Gen(e, s).s, Gen(Nest(e), t).s, LeaksUnused(e), Uses(e))
    ensures var r, q := Gen(e, s).s, Gen(Nest(e), t).s;
      Alike(r, q) && SameShape(r, q) && HasInsertBlock(r) && WellNumbered(r)
  {
    hide Gen, Nest, LeaksUnused, Uses;
    AlikeAfter(e, s, t);
  }

  lemma AssignUnused(e: Expr)
    requires e.Binary? && e.op == '=' && e.lhs.Variable?
    ensures Uses(e) == Uses(e.rhs) + {e.lhs.name}
    ensures LeaksUnused(e) <==> LeaksUnused(e.rhs) && true && Leak(e.rhs) !! {e.lhs.name}
  {}

  lemma NestedAssign(e: Expr, t: GenState)
    requires e.Binary? && e.op == '=' && e.lhs.Variable? && Gen(Nest(e), t).v.Some?
    ensures var q := Gen(Nest(e.rhs), t);
      q.v.Some? && Gen(Nest(e), t) == GenAssign(e.lhs.name, q.v.value, q.s)
  {
    hide GenAssign;
    NestKind(e.lhs);
  }

  lemma {:induction false} ArgsTell(e: Expr, i: nat, s: GenState, t: GenState)
    requires e.Call? && i <= |e.args| && Alike(s, t)
    requires GenArgs(e, i, s).vs.Some? && GenArgs(Nest(e), i, t).vs.Some?
    ensures var r, q := GenArgs(e, i, s), GenArgs(Nest(e), i, t);
      q.vs == r.vs && HasInsertBlock(r.s) && Tells(s, t, r.s, q.s, ArgLeaksUnused(e, i), UsesArgs(e, i))
    decreases e, |e.args| - i
  {
    if i < |e.args| {
      hide Alike, Tells, HasInsertBlock;
      var a := e.args[i];
      CodeTells(a, s, t);
      TellsAlike(a, s, t);
      var r, q := Gen(a, s), Gen(Nest(a), t);
      ArgsTell(e, i + 1, r.s, q.s);
      TellsBoth(a, s, t, GenArgs(e, i, s).s, GenArgs(Nest(e), i, t).s, ArgLeaksUnused(e, i + 1), UsesArgs(e, i + 1));
    }
  }

  lemma {:induction false} IfTells(e: Expr, s: GenState, t: GenState)
    requires Alike(s, t) && e.If? && Gen(e, s).v.Some? && Gen(Nest(e), t).v.Some?
    ensures Gen(Nest(e), t).v == Gen(e, s).v
    ensures Tells(s, t, Gen(e, s).s, Gen(Nest(e), t).s, LeaksUnused(e), Uses(e))
    decreases e, 0
  {
    hide IfHead, IfElse, IfMerge, Grows, Alike, Tells, SameShape, SameCode, WellNumbered, HasInsertBlock, Reflects,
      LeaksUnused, Uses;
    AlikeNumbered(s, t);
    var rc, h, rt, els, rf := IfParts(e, s);
    var qc, g, qt, k, qf := IfParts(Nest(e), t);
    CodeTells(e.cond, s, t);
    TellsAlike(e.cond, s, t);
    SameNumbers(rc.s, qc.s);
    GrownWellNumbered(rc.s, h);
    HeadReflects(rc.s, qc.s, rc.v.value);
    ReflectedAlike(rc.s, qc.s, h, g);
    CodeTells(e.thn, h, g);
    TellsAlike(e.thn, h, g);
    SameNumbers(rt.s, qt.s);
    GrownWellNumbered(rc.s, els);
    ElseReflects(rt.s, qt.s, rc.s.nextBlock);
    ReflectedAlike(rt.s, qt.s, els, k);
    CodeTells(e.els, els, k);
    TellsAlike(e.els, els, k);
    MergeReflects(rf.s, qf.s, rc.s.nextBlock, rt.v.value, rt.s.cur, rf.v.value);
    TellsAfter(rt.s, qt.s, els, k, rf.s, qf.s, LeaksUnused(e.els), Uses(e.els));
    TellsBoth(e.thn, h, g, rf.s, qf.s, LeaksUnused(e.els), Uses(e.els));
    var arms := LeaksUnused(e.thn) && LeaksUnused(e.els) && Leak(e.thn) !! Uses(e.els);
    TellsAfter(rc.s, qc.s, h, g, rf.s, qf.s, arms, Uses(e.thn) + Uses(e.els));
    TellsBoth(e.cond, s, t, rf.s, qf.s, arms, Uses(e.thn) + Uses(e.els));
    var all := LeaksUnused(e.cond) && arms && Leak(e.cond) !! Uses(e.thn) + Uses(e.els);
    TellsThrough(s, t, rf.s, qf.s, Gen(e, s).s, Gen(Nest(e), t).s, all, Uses(e.cond) + (Uses(e.thn) + Uses(e.els)));
    IfUnused(e);
  }

  lemma IfUnused(e: Expr)
    requires e.If?
    ensures Uses(e) == Uses(e.cond) + (Uses(e.thn) + Uses(e.els))
    ensures LeaksUnused(e) <==>
      && LeaksUnused(e.cond)
      && (LeaksUnused(e.thn) && LeaksUnused(e.els) && Leak(e.thn) !! Uses(e.els))
      && Leak(e.cond) !! Uses(e.thn) + Uses(e.els)
  {}

  /** A step that leaves the tables alone. */
  lemma ReflectedAlike(s: GenState, t: GenState, s2: GenState, t2: GenState)
    requires Alike(s, t) && Reflects(s, t, s2, t2) && s2.named == s.named && t2.named == t.named
    requires WellNumbered(s2) && |s.allocas| <= |s2.allocas|
    ensures Alike(s2, t2)
  {
    SameTables(s, t, s2, t2);
  }

  /** Such a step, and then something that tells. */
  lemma TellsAfter(s: GenState, t: GenState, a: GenState, p: GenState, s2: GenState, t2: GenState, unused: bool,
          uses: set<string>)
    requires Alike(s, t) && Reflects(s, t, a, p) && a.named == s.named && p.named == t.named
    requires WellNumbered(a) && |s.allocas| <= |a.allocas|
    requires Tells(a, p, s2, t2, unused, uses)
    ensures Tells(s, t, s2, t2, unused, uses)
  {
    SameTables(s, t, a, p);
  }

  lemma {:induction false} ForTells(e: Expr, s: GenState, t: GenState)
    requires Alike(s, t) && e.For? && Gen(e, s).v.Some? && Gen(Nest(e), t).v.Some?
    ensures Gen(Nest(e), t).v == Gen(e, s).v
    ensures Tells(s, t, Gen(e, s).s, Gen(Nest(e), t).s, LeaksUnused(e), Uses(e))
    decreases e, 0
  {
    hide ForHead, ForTail, NewAlloca, Bind, Unbind, Grows, Alike, Tells, SameShape, SameCode, WellNumbered,
      HasInsertBlock, Reflects, LeaksUnused, Uses, UsesInside;
    AlikeNumbered(s, t);
    SameNumbersOf(s, t);
    var x, slot := e.varName, |s.allocas|;
    var a, rs, h, b, rb, rp, re := ForParts(e, s);
    var p, qs, g, d, qb, qp, qe := ForParts(Nest(e), t);
    AllocaReflects(s, t, x);
    ReflectedAlike(s, t, a, p);
    CodeTells(e.start, a, p);
    TellsAlike(e.start, a, p);
    LoopNumbered(e, s, a, rs, h, b, rb, rp, re);
    ForHeadReflects(rs.s, qs.s, slot, rs.v.value);
    ReflectedAlike(rs.s, qs.s, h, g);
    BoundAlike(h, g, x, slot);
    CodeTells(e.body, b, d);
    TellsAlike(e.body, b, d);
    OptionTells(e.step, s.one, rb.s, qb.s);
    OptionTellsAlike(e.step, s.one, rb.s, qb.s);
    CodeTells(e.end, rp.s, qp.s);
    TellsAlike(e.end, rp.s, qp.s);
    OptionTellsBoth(e.step, s.one, rb.s, qb.s, re.s, qe.s, LeaksUnused(e.end), Uses(e.end));
    var later := OptionLeaksUnused(e.step) && LeaksUnused(e.end) && LeakOption(e.step) !! Uses(e.end);
    TellsBoth(e.body, b, d, re.s, qe.s, later, UsesOption(e.step) + Uses(e.end));
    var inside := LeaksUnused(e.body) && later && Leak(e.body) !! UsesOption(e.step) + Uses(e.end);
    TellsOutside(h, g, x, slot, re.s, qe.s, inside, Uses(e.body) + (UsesOption(e.step) + Uses(e.end)));
    var uses := Uses(e.body) + (UsesOption(e.step) + Uses(e.end)) - {x};
    TellsAfter(rs.s, qs.s, h, g, re.s, qe.s, inside, uses);
    TellsBoth(e.start, a, p, re.s, qe.s, inside, uses);
    var all := LeaksUnused(e.start) && inside && Leak(e.start) !! uses;
    TellsAfter(s, t, a, p, re.s, qe.s, all, Uses(e.start) + uses);
    SameNumbersOf(h, g);
    TailReflects(re.s, qe.s, slot, rp.v.value, re.v.value, h.cur);
    var u, v := ForTail(re.s, slot, rp.v.value, re.v.value, h.cur), ForTail(qe.s, slot, rp.v.value, re.v.value, h.cur);
    TellsThrough(s, t, re.s, qe.s, u, v, all, Uses(e.start) + uses);
    TellsUnbound(s, t, u, v, x, Lookup(h, x), Lookup(g, x), all, Uses(e.start) + uses);
    ForUnused(e);
  }

  lemma SameNumbersOf(s: GenState, t: GenState)
    requires Alike(s, t)
    ensures t.allocas == s.allocas && t.zero == s.zero && t.one == s.one && t.cur == s.cur
  {}

  lemma ForUnused(e: Expr)
    requires e.For?
    ensures var uses := Uses(e.body) + (UsesOption(e.step) + Uses(e.end)) - {e.varName};
      && Uses(e) == Uses(e.start) + uses
      && (LeaksUnused(e) <==>
            && LeaksUnused(e.start)
            && (LeaksUnused(e.body)
                && (OptionLeaksUnused(e.step) && LeaksUnused(e.end) && LeakOption(e.step) !! Uses(e.end))
                && Leak(e.body) !! UsesOption(e.step) + Uses(e.end))
            && Leak(e.start) !! uses)
  {}

  lemma AllocaReflects(s: GenState, t: GenState, x: string)
    requires Alike(s, t)
    ensures Reflects(s, t, NewAlloca(s, x), NewAlloca(t, x)) && WellNumbered(NewAlloca(s, x))
    ensures NewAlloca(s, x).named == s.named && NewAlloca(t, x).named == t.named
    ensures |s.allocas| <= |NewAlloca(s, x).allocas|
  {}

  lemma TellsUnbound(s: GenState, t: GenState, s2: GenState, t2: GenState, x: string, p: Option<nat>, q: Option<nat>,
          unused: bool, uses: set<string>)
    requires Tells(s, t, s2, t2, unused, uses)
    ensures Tells(s, t, Unbind(s2, x, p), Unbind(t2, x, q), unused, uses)
  {}

  lemma LoopNumbered(e: Expr, s: GenState, a: GenState, rs: Result, h: GenState, b: GenState, rb: Result, rp: Result,
          re: Result)
    requires e.For? && AreForParts(e, s, a, rs, h, b, rb, rp, re)
    ensures WellNumbered(h) && |s.allocas| < |rs.s.allocas| <= |h.allocas|
  {}

  lemma OptionTellsAlike(e: Option<Expr>, default: Double, s: GenState, t: GenState)
    requires Alike(s, t) && GenOption(e, default, s).v.Some? && GenOption(NestOption(e), default, t).v.Some?
    requires Tells(s, t, GenOption(e, default, s).s, GenOption(NestOption(e), default, t).s,
      OptionLeaksUnused(e), UsesOption(e))
    ensures Alike(GenOption(e, default, s).s, GenOption(NestOption(e), default, t).s)
  {
    OptionAlikeAfter(e, default, s, t);
  }

  lemma OptionTellsBoth(e: Option<Expr>, default: Double, s: GenState, t: GenState, s2: GenState, t2: GenState,
          unused: bool, uses: set<string>)
    requires Alike(s, t) && GenOption(e, default, s).v.Some? && GenOption(NestOption(e), default, t).v.Some?
    requires Tells(s, t, GenOption(e, default, s).s, GenOption(NestOption(e), default, t).s,
      OptionLeaksUnused(e), UsesOption(e))
    requires Tells(GenOption(e, default, s).s, GenOption(NestOption(e), default, t).s, s2, t2, unused, uses)
    ensures Tells(s, t, s2, t2, OptionLeaksUnused(e) && unused && LeakOption(e) !! uses, UsesOption(e) + uses)
  {
    hide Alike, GenOption, OptionLeaksUnused, LeakOption, UsesOption;
    if SameCode(s2, t2) { OptionAgreedBefore(e, default, s, t, uses); }
  }

  /** What is told of the inside of a scope, told of the outside. */
  lemma TellsOutside(s: GenState, t: GenState, x: string, slot: nat, s2: GenState, t2: GenState, unused: bool,
          uses: set<string>)
    requires Alike(s, t) && slot < |s.allocas| && Tells(Bind(s, x, slot), Bind(t, x, slot), s2, t2, unused, uses)
    ensures Tells(s, t, s2, t2, unused, uses - {x})
  {
    BoundAlike(s, t, x, slot);
  }

  lemma {:induction false} VarsTell(e: Expr, i: nat, s: GenState, t: GenState)
    requires e.VarIn? && i <= |e.vars| && Alike(s, t)
    requires GenVars(e, i, s).v.Some? && Gen(NestVars(e, i), t).v.Some?
    ensures var r, q := GenVars(e, i, s), Gen(NestVars(e, i), t);
      q.v == r.v && Tells(s, t, r.s, q.s, VarLeaksUnused(e, i), UsesVars(e, i))
    decreases e, |e.vars| - i
  {
    hide Alike, Tells, DeclareVar, SameCode, Gen, GenVars, GenOption, Nest, NestVars, NestOption, UsesVars,
      VarLeaksUnused;
    if i == |e.vars| {
      VarsEnd(e, s);
      CodeTells(e.body, s, t);
    } else {
      VarsStep(e, i, s);
      var b := e.vars[i];
      SameNumbersOf(s, t);
      var r, q := GenOption(b.init, s.zero, s), GenOption(NestOption(b.init), s.zero, t);
      NestedInit(e, i, t);
      OptionTells(b.init, s.zero, s, t);
      OptionTellsAlike(b.init, s.zero, s, t);
      var c, d := DeclareVar(r.s, b.name, r.v.value), DeclareVar(q.s, b.name, r.v.value);
      DeclareReflects(r.s, q.s, b.name, r.v.value);
      NestedVars(e, i, t, d);
      VarsTell(e, i + 1, c, d);
      var r2, q2, n := GenVars(e, i + 1, c), Gen(NestVars(e, i + 1), d), Gen(NestVars(e, i), t);
      TellsDeclared(r.s, q.s, b.name, r.v.value, r2.s, q2.s, VarLeaksUnused(e, i + 1), UsesVars(e, i + 1));
      OptionTellsBoth(b.init, s.zero, s, t, r2.s, q2.s, VarLeaksUnused(e, i + 1), UsesVars(e, i + 1) - {b.name});
      TellsSameCode(s, t, r2.s, q2.s, n.s, VarLeaksUnused(e, i), UsesVars(e, i));
    }
  }

  lemma VarsEnd(e: Expr, s: GenState)
    requires e.VarIn?
    ensures var n := |e.vars|;
      && GenVars(e, n, s).v == Gen(e.body, s).v && GenVars(e, n, s).s == Gen(e.body, s).s
      && NestVars(e, n) == Nest(e.body)
      && UsesVars(e, n) == Uses(e.body) && (VarLeaksUnused(e, n) <==> LeaksUnused(e.body))
  {}

  lemma VarsStep(e: Expr, i: nat, s: GenState)
    requires e.VarIn? && i < |e.vars| && GenVars(e, i, s).v.Some?
    ensures var r := GenOption(e.vars[i].init, s.zero, s);
      && r.v.Some?
      && var rest := GenVars(e, i + 1, DeclareVar(r.s, e.vars[i].name, r.v.value));
         rest.v.Some? && GenVars(e, i, s).v == rest.v && GenVars(e, i, s).s == rest.s
    ensures var init, x := e.vars[i].init, e.vars[i].name;
      && UsesVars(e, i) == UsesOption(init) + (UsesVars(e, i + 1) - {x})
      && (VarLeaksUnused(e, i) <==>
            OptionLeaksUnused(init) && VarLeaksUnused(e, i + 1) && LeakOption(init) !! UsesVars(e, i + 1) - {x})
  {
    hide DeclareVar;
  }

  lemma NestedInit(e: Expr, i: nat, t: GenState)
    requires e.VarIn? && i < |e.vars| && Gen(NestVars(e, i), t).v.Some?
    ensures var q := GenOption(NestOption(e.vars[i].init), t.zero, t);
      q.v.Some? && Gen(NestVars(e, i + 1), DeclareVar(q.s, e.vars[i].name, q.v.value)).v.Some?
  {
    hide DeclareVar, RestoreNames;
    var n := NestVars(e, i);
    var q := GenOption(n.vars[0].init, t.zero, t);
    if q.v.Some? {
      var d := DeclareVar(q.s, e.vars[i].name, q.v.value);
      assert GenVars(n, 1, d) == VarsResult(Gen(n.body, d).v, Gen(n.body, d).s, []);
    }
  }

  lemma TellsDeclared(s: GenState, t: GenState, x: string, v: Operand, s2: GenState, t2: GenState, unused: bool,
          uses: set<string>)
    requires Alike(s, t) && Tells(DeclareVar(s, x, v), DeclareVar(t, x, v), s2, t2, unused, uses)
    ensures Tells(s, t, s2, t2, unused, uses - {x})
  {
    DeclareReflects(s, t, x, v);
  }

  lemma TellsSameCode(s: GenState, t: GenState, s2: GenState, t2: GenState, t3: GenState, unused: bool,
          uses: set<string>)
    requires Tells(s, t, s2, t2, unused, uses) && SameCode(t2, t3)
    ensures Tells(s, t, s2, t3, unused, uses)
  {}

  // ----- The exact condition -----

  /** An expression and the one with its lists taken apart, each that can be generated: the code is the same exactly if
      no name is used that has leaked before. */
  lemma SameCodeIff(e: Expr, s: GenState)
    requires WellNumbered(s) && SlotsExist(s) && Gen(e, s).v.Some?
    ensures SameResult(Gen(e, s), Gen(Nest(e), s)) <==> LeaksUnused(e)
  {
    hide Gen, Nest, LeaksUnused, Uses;
    if LeaksUnused(e) { GenNest(e, s, s); }
    if SameResult(Gen(e, s), Gen(Nest(e), s)) { CodeTells(e, s, s); }
  }
}
