/** The code generator itself: one method per kind of node, updating the function under construction, the
    insertion block and the name table in place. */
module CodeGenerators {
  import opened Wrappers
  import opened KaleidoscopeAst
  import opened Ir
  import opened CodeGenSpec
  import opened CodeGenFrame

  /** One variable of a var expression, put before those that follow. */
  lemma NextVar(e: Expr, i: nat, s: GenState, olds: seq<Option<nat>>)
    requires e.VarIn? && i < |e.vars| && GenOption(e.vars[i].init, s.zero, s).v.Some?
    ensures var r := GenOption(e.vars[i].init, s.zero, s);
      var here, next := GenVars(e, i, s), GenVars(e, i + 1, DeclareVar(r.s, e.vars[i].name, r.v.value));
      here.(olds := olds + here.olds) == next.(olds := olds + [Lookup(r.s, e.vars[i].name)] + next.olds)
  {
    hide GenOption, DeclareVar, Lookup;
    var r := GenOption(e.vars[i].init, s.zero, s);
    var next := GenVars(e, i + 1, DeclareVar(r.s, e.vars[i].name, r.v.value));
    var old0 := [Lookup(r.s, e.vars[i].name)];
    assert olds + (old0 + next.olds) == olds + old0 + next.olds;
  }

  class CodeGenerator {
    const funcs: map<string, nat>
    const zero: Double
    const one: Double
    var blocks: map<nat, seq<Instr>>
    var insertBlock: nat
    var nextBlock: nat
    var nextTemp: nat
    var allocas: seq<Alloca>
    var namedValues: map<string, Option<nat>>

    /** The abstract state the specification functions work on. */
    ghost function State(): GenState
      reads this
    {
      GenState(funcs, zero, one, blocks, insertBlock, nextBlock, nextTemp, allocas, namedValues)
    }

    ghost predicate Valid()
      reads this
    {
      WellNumbered(State())
    }

    constructor (funcs: map<string, nat>, zero: Double, one: Double)
      ensures Valid() && State() == EmptyFunction(funcs, zero, one)
    {
      this.funcs, this.zero, this.one := funcs, zero, one;
      blocks, insertBlock, nextBlock, nextTemp := map[0 := []], 0, 1, 0;
      allocas, namedValues := [], map[];
    }

    method EmitInstr(i: Instr)
      requires Valid()
      modifies this`blocks
      ensures Valid() && State() == Emit(old(State()), i)
    {
      blocks := blocks[insertBlock := blocks[insertBlock] + [i]];
    }

    method DefineValue(i: Instr) returns (v: Option<Operand>)
      requires Valid()
      modifies this`blocks, this`nextTemp
      ensures Valid() && Result(v, State()) == Define(old(State()), i)
    {
      v := Some(Temp(nextTemp));
      EmitInstr(i);
      nextTemp := nextTemp + 1;
    }

    /** Reading the table with [] inserts a null entry for an unknown name. */
    method LookUp(x: string) returns (slot: Option<nat>)
      requires Valid()
      modifies this`namedValues
      ensures Valid() && slot == Lookup(old(State()), x) && State() == Touch(old(State()), x)
    {
      if x !in namedValues { namedValues := namedValues[x := None]; }
      slot := namedValues[x];
    }

    method CreateEntryBlockAlloca(x: string) returns (slot: nat)
      requires Valid()
      modifies this`allocas
      ensures Valid() && slot == |old(allocas)| && State() == NewAlloca(old(State()), x)
    {
      slot := |allocas|;
      allocas := [Alloca(slot, x)] + allocas;
    }

    method SetInsertPoint(id: nat)
      requires Valid() && id < nextBlock
      modifies this`blocks, this`insertBlock
      ensures Valid() && State() == StartBlock(old(State()), id)
    {
      blocks := blocks[id := []];
      insertBlock := id;
    }

    method EmitCall(f: string, vs: seq<Operand>) returns (v: Option<Operand>)
      requires Valid()
      modifies this
      ensures Valid() && Result(v, State()) == GenCall(f, vs, old(State()))
    {
      if f in funcs {
        v := DefineValue(CallFn(nextTemp, f, vs));
      } else {
        v := None;
      }
    }

    method Codegen(e: Expr) returns (v: Option<Operand>)
      requires Valid()
      modifies this
      ensures Valid() && Result(v, State()) == Gen(e, old(State()))
      decreases e
    {
      GenGrows(e, State());
      match e {
        case Number(d) =>
          v := Some(Const(d));
        case Variable(x) =>
          var slot := LookUp(x);
          if slot.None? { return None; }
          v := DefineValue(Load(nextTemp, slot.value));
        case Unary(op, a) =>
          v := Codegen(a);
          if v.None? { return; }
          v := EmitCall(UnaryName(op), [v.value]);
        case Binary(op, l, r) =>
          v := CodegenBinary(e);
        case Call(_, _) =>
          v := CodegenCall(e);
        case If(_, _, _) =>
          v := CodegenIf(e);
        case For(_, _, _, _, _) =>
          v := CodegenFor(e);
        case VarIn(_, _) =>
          v := CodegenVarIn(e);
      }
    }

    method CodegenBinary(e: Expr) returns (v: Option<Operand>)
      requires Valid() && e.Binary?
      modifies this
      ensures Valid() && Result(v, State()) == Gen(e, old(State()))
      decreases e, 0
    {
      if e.op == '=' {
        if !e.lhs.Variable? { return None; }
        v := Codegen(e.rhs);
        if v.None? { return; }
        var slot := LookUp(e.lhs.name);
        if slot.None? { return None; }
        EmitInstr(Store(v.value, slot.value));
      } else {
        var l := Codegen(e.lhs);
        var r := Codegen(e.rhs);
        if l.None? || r.None? { return None; }
        match e.op {
          case '+' => v := DefineValue(FBinary(nextTemp, FAdd, l.value, r.value));
          case '-' => v := DefineValue(FBinary(nextTemp, FSub, l.value, r.value));
          case '*' => v := DefineValue(FBinary(nextTemp, FMul, l.value, r.value));
          case '<' =>
            v := DefineValue(FCmpULT(nextTemp, l.value, r.value));
            v := DefineValue(UIToFP(nextTemp, v.value));
          case _ => v := EmitCall(BinaryName(e.op), [l.value, r.value]);
        }
      }
    }

    method CodegenCall(e: Expr) returns (v: Option<Operand>)
      requires Valid() && e.Call?
      modifies this
      ensures Valid() && Result(v, State()) == Gen(e, old(State()))
      decreases e, 0
    {
      if e.callee !in funcs || funcs[e.callee] != |e.args| { return None; }
      var vs: seq<Operand> := [];
      var i := 0;
      assert forall ws: seq<Operand> :: [] + ws == ws;
      while i < |e.args|
        invariant 0 <= i <= |e.args| && Valid()
        invariant var rest := GenArgs(e, i, State()); var all := GenArgs(e, 0, old(State()));
          all.s == rest.s && all.vs == if rest.vs.None? then None else Some(vs + rest.vs.value)
      {
        var a := Codegen(e.args[i]);
        if a.None? { return None; }
        assert forall ws :: (vs + [a.value]) + ws == vs + ([a.value] + ws);
        vs := vs + [a.value];
        i := i + 1;
      }
      assert vs + [] == vs;
      v := EmitCall(e.callee, vs);
    }

    method CodegenIf(e: Expr) returns (v: Option<Operand>)
      requires Valid() && e.If?
      modifies this
      ensures Valid() && Result(v, State()) == Gen(e, old(State()))
      decreases e, 0
    {
      v := Codegen(e.cond);
      if v.None? { return; }
      var flag := DefineValue(FCmpONE(nextTemp, v.value, Const(zero)));
      var thenBB, elseBB, mergeBB := nextBlock, nextBlock + 1, nextBlock + 2;
      nextBlock := nextBlock + 3;
      EmitInstr(CondBr(flag.value, thenBB, elseBB));
      SetInsertPoint(thenBB);
      GenGrows(e.thn, State());
      var thenV := Codegen(e.thn);
      if thenV.None? { return None; }
      EmitInstr(Br(mergeBB));
      var thenEnd := insertBlock;
      SetInsertPoint(elseBB);
      GenGrows(e.els, State());
      var elseV := Codegen(e.els);
      if elseV.None? { return None; }
      EmitInstr(Br(mergeBB));
      var elseEnd := insertBlock;
      SetInsertPoint(mergeBB);
      v := DefineValue(Phi(nextTemp, [Incoming(thenV.value, thenEnd), Incoming(elseV.value, elseEnd)]));
    }

    method CodegenOption(e: Option<Expr>, default: Double) returns (v: Option<Operand>)
      requires Valid()
      modifies this
      ensures Valid() && Result(v, State()) == GenOption(e, default, old(State()))
      decreases e
    {
      if e.Some? { v := Codegen(e.value); } else { v := Some(Const(default)); }
    }

    /** Stores the start value and moves into a new loop block. */
    method EnterLoop(start: Operand, slot: nat) returns (loopBB: nat)
      requires Valid()
      modifies this
      ensures Valid() && State() == ForHead(old(State()), slot, start) && loopBB == insertBlock
    {
      EmitInstr(Store(start, slot));
      loopBB := nextBlock;
      nextBlock := nextBlock + 1;
      EmitInstr(Br(loopBB));
      SetInsertPoint(loopBB);
    }

    /** Increments the loop variable, tests the end condition and moves out of the loop. */
    method LeaveLoop(slot: nat, step: Operand, end: Operand, loopBB: nat)
      requires Valid()
      modifies this
      ensures Valid() && State() == ForTail(old(State()), slot, step, end, loopBB)
    {
      var cur := DefineValue(Load(nextTemp, slot));
      var next := DefineValue(FBinary(nextTemp, FAdd, cur.value, step));
      EmitInstr(Store(next.value, slot));
      assert State() == Increment(old(State()), slot, step);
      hide Increment;
      var flag := DefineValue(FCmpONE(nextTemp, end, Const(zero)));
      var afterBB := nextBlock;
      nextBlock := nextBlock + 1;
      EmitInstr(CondBr(flag.value, loopBB, afterBB));
      SetInsertPoint(afterBB);
    }

    /** Binds a name to a slot and says what it was bound to. */
    method Shadow(x: string, slot: nat) returns (outer: Option<nat>)
      requires Valid()
      modifies this`namedValues
      ensures Valid() && outer == Lookup(old(State()), x) && State() == Bind(old(State()), x, slot)
    {
      outer := LookUp(x);
      namedValues := namedValues[x := Some(slot)];
      assert namedValues == old(namedValues)[x := Some(slot)];
    }

    method CodegenFor(e: Expr) returns (v: Option<Operand>)
      requires Valid() && e.For?
      modifies this
      ensures Valid() && Result(v, State()) == Gen(e, old(State()))
      decreases e, 0
    {
      hide ForHead, ForTail, Grows, WellNumbered;
      var slot := CreateEntryBlockAlloca(e.varName);
      var start := Codegen(e.start);
      if start.None? { return None; }
      var loopBB := EnterLoop(start.value, slot);
      var outer := Shadow(e.varName, slot);
      var body := Codegen(e.body);
      if body.None? { return None; }
      var step := CodegenOption(e.step, one);
      if step.None? { return None; }
      var end := Codegen(e.end);
      if end.None? { return None; }
      LeaveLoop(slot, step.value, end.value, loopBB);
      EndScope(e.varName, outer);
      v := Some(Const(zero));
    }

    method EndScope(x: string, outer: Option<nat>)
      requires Valid()
      modifies this`namedValues
      ensures Valid() && State() == Unbind(old(State()), x, outer)
    {
      namedValues := if outer.Some? then namedValues[x := outer] else namedValues - {x};
    }

    method CodegenVarIn(e: Expr) returns (v: Option<Operand>)
      requires Valid() && e.VarIn?
      modifies this
      ensures Valid() && Result(v, State()) == Gen(e, old(State()))
      decreases e, 0
    {
      hide RestoreNames;
      var oldBindings: seq<Option<nat>> := [];
      var i := 0;
      while i < |e.vars|
        invariant 0 <= i <= |e.vars| && Valid() && |oldBindings| == i
        invariant var rest := GenVars(e, i, State());
          GenVars(e, 0, old(State())) == rest.(olds := oldBindings + rest.olds)
      {
        var x := e.vars[i].name;
        ghost var s, olds := State(), oldBindings;
        var init := CodegenOption(e.vars[i].init, zero);
        if init.None? { return None; }
        var slot := CreateEntryBlockAlloca(x);
        EmitInstr(Store(init.value, slot));
        var outer := Shadow(x, slot);
        oldBindings := oldBindings + [outer];
        NextVar(e, i, s, olds);
        i := i + 1;
      }
      assert oldBindings + [] == oldBindings;
      v := Codegen(e.body);
      if v.None? { return; }
      RestoreScopes(e.vars, oldBindings);
    }

    method RestoreScopes(vars: seq<Binding>, oldBindings: seq<Option<nat>>)
      requires Valid() && |vars| == |oldBindings|
      modifies this`namedValues
      ensures Valid() && State() == old(State()).(named := RestoreNames(old(namedValues), vars, oldBindings))
    {
      var i := 0;
      assert vars[0..] == vars && oldBindings[0..] == oldBindings;
      while i < |vars|
        invariant 0 <= i <= |vars| && Valid()
        invariant RestoreNames(old(namedValues), vars, oldBindings)
          == RestoreNames(namedValues, vars[i..], oldBindings[i..])
      {
        assert vars[i..][1..] == vars[i + 1..] && oldBindings[i..][1..] == oldBindings[i + 1..];
        namedValues := namedValues[vars[i].name := oldBindings[i]];
        i := i + 1;
      }
    }

    /** A whole function, on a generator that has just been set up for it. */
    method CodegenFunction(params: seq<string>, body: Expr) returns (f: Option<Function>)
      requires Valid() && State() == EmptyFunction(funcs, zero, one)
      modifies this
      ensures f == GenFunction(params, body, funcs, zero, one)
    {
      hide Gen;
      var i := 0;
      while i < |params|
        invariant 0 <= i <= |params| && Valid()
        invariant GenParams(params, 0, EmptyFunction(funcs, zero, one)) == GenParams(params, i, State())
      {
        ghost var s := State();
        var slot := CreateEntryBlockAlloca(params[i]);
        EmitInstr(Store(Param(i), slot));
        namedValues := namedValues[params[i] := Some(slot)];
        assert State() == DeclareVar(s, params[i], Param(i));
        i := i + 1;
      }
      hide GenParams;
      var v := Codegen(body);
      if v.None? { return None; }
      EmitInstr(Ret(v.value));
      f := Some(Function(allocas, blocks));
    }
  }
}
