/** Facts about the semantics of MiniC: fuel does not matter once there is enough of it, what was written stays
    written, and the order in which a declaration evaluates its initialisers does not matter where it is well formed. */
module MiniCFacts {
  import opened MiniC

  /** w is a later world than v. */
  predicate Later(v: World, w: World) {
    && v.output <= w.output
    && |w.input| <= |v.input| && w.input == v.input[|v.input| - |w.input|..]
  }

  lemma LaterIsOrder()
    ensures forall w :: Later(w, w)
    ensures forall u, v, w :: Later(u, v) && Later(v, w) ==> Later(u, w)
  {}

  /** Reading and writing lead to later worlds. */
  lemma LaterByIO(w: World, v: int)
    ensures Later(w, ReadInput(w).world) && Later(w, w.(output := w.output + [v]))
  {}

  lemma {:induction false} EvalLater(p: Program, fuel: nat, vars: Vars, e: Expr, w: World)
    ensures Later(w, Eval(p, fuel, vars, e, w).world)
    decreases fuel, 1, e, 1, 0
  {
    hide Later;
    LaterIsOrder();
    match e
    case Cast(_, sub) => EvalLater(p, fuel, vars, sub, w);
    case Plus(_, sub) => EvalLater(p, fuel, vars, sub, w);
    case Minus(_, sub) => EvalLater(p, fuel, vars, sub, w);
    case Binary(_, _, left, right) =>
      EvalLater(p, fuel, vars, left, w);
      var l := Eval(p, fuel, vars, left, w);
      if l.Done? { EvalLater(p, fuel, vars, right, l.world); }
    case Call(_, _, target, _) =>
      if target.Input? {
        LaterByIO(w, 0);
      } else {
        ArgsLater(p, fuel, vars, e, [], w);
        var a := EvalArgs(p, fuel, vars, e, [], w);
        if a.Done? { CallLater(p, fuel, target.index, a.value, a.world); }
      }
    case _ =>
  }

  lemma {:induction false} ArgsLater(p: Program, fuel: nat, vars: Vars, e: Expr, values: seq<int>, w: World)
    requires e.Call?
    ensures Later(w, EvalArgs(p, fuel, vars, e, values, w).world)
    decreases fuel, 1, e, 0, |e.args| - |values|
  {
    hide Later;
    LaterIsOrder();
    if |values| < |e.args| {
      EvalLater(p, fuel, vars, e.args[|values|], w);
      var r := Eval(p, fuel, vars, e.args[|values|], w);
      if r.Done? { ArgsLater(p, fuel, vars, e, values + [r.value], r.world); }
    }
  }

  lemma {:induction false} CallLater(p: Program, fuel: nat, k: nat, values: seq<int>, w: World)
    ensures Later(w, CallUser(p, fuel, k, values, w).world)
    decreases fuel, 0
  {
    hide Later;
    LaterIsOrder();
    if k < |p| && fuel > 0 {
      var start := Bind(p[k].params, values);
      BlockLater(p, fuel - 1, start, p[k].body, w);
      var r := ExecBlock(p, fuel - 1, start, p[k].body, w);
      if r.Done? { EvalLater(p, fuel - 1, r.value, p[k].result, r.world); }
    }
  }

  lemma {:induction false} ExecLater(p: Program, fuel: nat, vars: Vars, s: Stmt, w: World)
    ensures Later(w, Exec(p, fuel, vars, s, w).world)
    decreases fuel, 3, s, 1
  {
    hide Later;
    LaterIsOrder();
    match s
    case Declare(decls) => DeclsLater(p, fuel, vars, decls, w);
    case Assign(_, _, _, right) => EvalLater(p, fuel, vars, right, w);
    case Evaluate(expr) => EvalLater(p, fuel, vars, expr, w);
    case Output(_, _, arg) =>
      EvalLater(p, fuel, vars, arg, w);
      var r := Eval(p, fuel, vars, arg, w);
      if r.Done? { LaterByIO(r.world, r.value); }
    case If(cond, yes, no) =>
      EvalLater(p, fuel, vars, cond, w);
      var c := Eval(p, fuel, vars, cond, w);
      if c.Done? { BlockLater(p, fuel, vars, if c.value != 0 then yes else no, c.world); }
    case While(cond, body) =>
      EvalLater(p, fuel, vars, cond, w);
      var c := Eval(p, fuel, vars, cond, w);
      if c.Done? && c.value != 0 {
        BlockLater(p, fuel, vars, body, c.world);
        var r := ExecBlock(p, fuel, vars, body, c.world);
        if r.Done? && fuel > 0 { ExecLater(p, fuel - 1, r.value, s, r.world); }
      }
  }

  lemma {:induction false} DeclsLater(p: Program, fuel: nat, vars: Vars, decls: seq<Declarator>, w: World)
    ensures Later(w, ExecDecls(p, fuel, vars, decls, w).world)
    decreases fuel, 2, |decls|
  {
    hide Later;
    LaterIsOrder();
    if decls != [] {
      match decls[0]
      case Plain(x) => DeclsLater(p, fuel, vars[x := 0], decls[1..], w);
      case Initialised(x, init) =>
        EvalLater(p, fuel, vars, init, w);
        var r := Eval(p, fuel, vars, init, w);
        if r.Done? { DeclsLater(p, fuel, vars[x := r.value], decls[1..], r.world); }
    }
  }

  lemma {:induction false} BlockLater(p: Program, fuel: nat, vars: Vars, b: Block, w: World)
    ensures Later(w, ExecBlock(p, fuel, vars, b, w).world)
    decreases fuel, 3, b, 0
  {
    hide Later;
    LaterIsOrder();
    if b.Then? {
      ExecLater(p, fuel, vars, b.first, w);
      var r := Exec(p, fuel, vars, b.first, w);
      if r.Done? { BlockLater(p, fuel, r.value, b.rest, r.world); }
    }
  }

  // ----- Fuel -----

  /** With more fuel s, what r answered is answered again, and what r had written when it ran out is written again. */
  ghost predicate Extends<T>(r: Result<T>, s: Result<T>) {
    if r.OutOfFuel? then Later(r.world, s.world) else s == r
  }

  lemma {:induction false} EvalFuel(p: Program, fuel: nat, more: nat, vars: Vars, e: Expr, w: World)
    requires fuel <= more
    ensures Extends(Eval(p, fuel, vars, e, w), Eval(p, more, vars, e, w))
    decreases fuel, 1, e, 1, 0
  {
    hide Later;
    LaterIsOrder();
    match e
    case Cast(_, sub) => EvalFuel(p, fuel, more, vars, sub, w);
    case Plus(_, sub) => EvalFuel(p, fuel, more, vars, sub, w);
    case Minus(_, sub) => EvalFuel(p, fuel, more, vars, sub, w);
    case Binary(_, _, left, right) =>
      EvalFuel(p, fuel, more, vars, left, w);
      var l, l2 := Eval(p, fuel, vars, left, w), Eval(p, more, vars, left, w);
      if l.Done? { EvalFuel(p, fuel, more, vars, right, l.world); }
      if l2.Done? { EvalLater(p, more, vars, right, l2.world); }
    case Call(_, _, target, _) =>
      if !target.Input? {
        ArgsFuel(p, fuel, more, vars, e, [], w);
        var a, a2 := EvalArgs(p, fuel, vars, e, [], w), EvalArgs(p, more, vars, e, [], w);
        if a.Done? { CallFuel(p, fuel, more, target.index, a.value, a.world); }
        if a2.Done? { CallLater(p, more, target.index, a2.value, a2.world); }
      }
    case _ =>
  }

  lemma {:induction false} ArgsFuel(p: Program, fuel: nat, more: nat, vars: Vars, e: Expr, values: seq<int>, w: World)
    requires fuel <= more && e.Call?
    ensures Extends(EvalArgs(p, fuel, vars, e, values, w), EvalArgs(p, more, vars, e, values, w))
    decreases fuel, 1, e, 0, |e.args| - |values|
  {
    hide Later;
    LaterIsOrder();
    if |values| < |e.args| {
      var arg := e.args[|values|];
      EvalFuel(p, fuel, more, vars, arg, w);
      var r, r2 := Eval(p, fuel, vars, arg, w), Eval(p, more, vars, arg, w);
      if r.Done? { ArgsFuel(p, fuel, more, vars, e, values + [r.value], r.world); }
      if r2.Done? { ArgsLater(p, more, vars, e, values + [r2.value], r2.world); }
    }
  }

  lemma {:induction false} CallFuel(p: Program, fuel: nat, more: nat, k: nat, values: seq<int>, w: World)
    requires fuel <= more
    ensures Extends(CallUser(p, fuel, k, values, w), CallUser(p, more, k, values, w))
    decreases fuel, 0
  {
    hide Later;
    LaterIsOrder();
    if fuel == 0 {
      CallLater(p, more, k, values, w);
    } else if k < |p| {
      var start := Bind(p[k].params, values);
      BlockFuel(p, fuel - 1, more - 1, start, p[k].body, w);
      var r, r2 := ExecBlock(p, fuel - 1, start, p[k].body, w), ExecBlock(p, more - 1, start, p[k].body, w);
      if r.Done? { EvalFuel(p, fuel - 1, more - 1, r.value, p[k].result, r.world); }
      if r2.Done? { EvalLater(p, more - 1, r2.value, p[k].result, r2.world); }
    }
  }

  lemma {:induction false} ExecFuel(p: Program, fuel: nat, more: nat, vars: Vars, s: Stmt, w: World)
    requires fuel <= more
    ensures Extends(Exec(p, fuel, vars, s, w), Exec(p, more, vars, s, w))
    decreases fuel, 3, s, 1
  {
    hide Later;
    LaterIsOrder();
    hide Eval, ExecBlock, ExecDecls, AfterCond;
    match s
    case Declare(decls) => DeclsFuel(p, fuel, more, vars, decls, w);
    case Assign(_, _, _, right) => EvalFuel(p, fuel, more, vars, right, w);
    case Evaluate(expr) => EvalFuel(p, fuel, more, vars, expr, w);
    case Output(_, _, arg) =>
      EvalFuel(p, fuel, more, vars, arg, w);
      var r := Eval(p, more, vars, arg, w);
      if r.Done? { LaterByIO(r.world, r.value); }
    case If(cond, yes, no) =>
      EvalFuel(p, fuel, more, vars, cond, w);
      var c, c2 := Eval(p, fuel, vars, cond, w), Eval(p, more, vars, cond, w);
      if c.Done? { BlockFuel(p, fuel, more, vars, if c.value != 0 then yes else no, c.world); }
      if c2.Done? { BlockLater(p, more, vars, if c2.value != 0 then yes else no, c2.world); }
    case While(cond, body) =>
      EvalFuel(p, fuel, more, vars, cond, w);
      var c, c2 := Eval(p, fuel, vars, cond, w), Eval(p, more, vars, cond, w);
      if c.Done? { AfterCondFuel(p, fuel, more, vars, s, c.value, c.world); }
      if c2.Done? { AfterCondLater(p, more, vars, s, c2.value, c2.world); }
  }

  lemma AfterCondLater(p: Program, fuel: nat, vars: Vars, s: Stmt, cond: int, w: World)
    requires s.While?
    ensures Later(w, AfterCond(p, fuel, vars, s, cond, w).world)
  {
    hide Later;
    LaterIsOrder();
    if cond != 0 {
      BlockLater(p, fuel, vars, s.body, w);
      var r := ExecBlock(p, fuel, vars, s.body, w);
      if r.Done? && fuel > 0 { ExecLater(p, fuel - 1, r.value, s, r.world); }
    }
  }

  lemma {:induction false} AfterCondFuel(p: Program, fuel: nat, more: nat, vars: Vars, s: Stmt, cond: int, w: World)
    requires fuel <= more && s.While?
    ensures Extends(AfterCond(p, fuel, vars, s, cond, w), AfterCond(p, more, vars, s, cond, w))
    decreases fuel, 3, s, 0
  {
    hide Later;
    LaterIsOrder();
    if cond != 0 {
      BlockFuel(p, fuel, more, vars, s.body, w);
      var r, r2 := ExecBlock(p, fuel, vars, s.body, w), ExecBlock(p, more, vars, s.body, w);
      if r.Done? && fuel > 0 { ExecFuel(p, fuel - 1, more - 1, r.value, s, r.world); }
      if r2.Done? && more > 0 { ExecLater(p, more - 1, r2.value, s, r2.world); }
    }
  }

  lemma {:induction false} DeclsFuel(p: Program, fuel: nat, more: nat, vars: Vars, decls: seq<Declarator>, w: World)
    requires fuel <= more
    ensures Extends(ExecDecls(p, fuel, vars, decls, w), ExecDecls(p, more, vars, decls, w))
    decreases fuel, 2, |decls|
  {
    hide Later;
    LaterIsOrder();
    hide Eval;
    if decls != [] {
      match decls[0]
      case Plain(x) => DeclsFuel(p, fuel, more, vars[x := 0], decls[1..], w);
      case Initialised(x, init) =>
        EvalFuel(p, fuel, more, vars, init, w);
        var r, r2 := Eval(p, fuel, vars, init, w), Eval(p, more, vars, init, w);
        if r.Done? { DeclsFuel(p, fuel, more, vars[x := r.value], decls[1..], r.world); }
        if r2.Done? { DeclsLater(p, more, vars[x := r2.value], decls[1..], r2.world); }
    }
  }

  /** The meaning of a block does not depend on the fuel, if there is enough; with too little, what was read and
      written so far is what is read and written first with more. */
  lemma {:induction false} BlockFuel(p: Program, fuel: nat, more: nat, vars: Vars, b: Block, w: World)
    requires fuel <= more
    ensures Extends(ExecBlock(p, fuel, vars, b, w), ExecBlock(p, more, vars, b, w))
    decreases fuel, 3, b, 0
  {
    hide Later;
    LaterIsOrder();
    if b.Then? {
      ExecFuel(p, fuel, more, vars, b.first, w);
      var r, r2 := Exec(p, fuel, vars, b.first, w), Exec(p, more, vars, b.first, w);
      if r.Done? { BlockFuel(p, fuel, more, r.value, b.rest, r.world); }
      if r2.Done? { BlockLater(p, more, r2.value, b.rest, r2.world); }
    }
  }

  // ----- Declarations -----

  /** The initialisers of a declaration, evaluated one after the other before anything is declared. */
  function EvalInits(p: Program, fuel: nat, vars: Vars, decls: seq<Declarator>, values: seq<int>, w: World)
    : (r: Result<seq<int>>)
    ensures r.Done? && |values| <= |decls| ==> |r.value| == |decls|
    decreases |decls| - |values|
  {
    if |values| >= |decls| then Done(values, w)
    else match decls[|values|]
      case Plain(_) => EvalInits(p, fuel, vars, decls, values + [0], w)
      case Initialised(_, init) =>
        var r := Eval(p, fuel, vars, init, w);
        if r.Done? then EvalInits(p, fuel, vars, decls, values + [r.value], r.world) else Lift(r)
  }

  function BindDecls(vars: Vars, decls: seq<Declarator>, values: seq<int>): Vars
    requires |values| <= |decls|
    decreases |values|
  {
    if values == [] then vars
    else
      var n := |values| - 1;
      BindDecls(vars, decls, values[..n])[decls[n].variable := values[n]]
  }

  /** What a declaration comes to when its initialisers are evaluated before anything is declared. */
  function InitsThenBind(p: Program, fuel: nat, vars: Vars, decls: seq<Declarator>, w: World): Result<Vars> {
    var r := EvalInits(p, fuel, vars, decls, [], w);
    if r.Done? then Done(BindDecls(vars, decls, r.value), r.world) else Lift(r)
  }

  predicate Agree(vars: Vars, other: Vars, xs: set<nat>) {
    forall x :: x in xs ==> (x in vars <==> x in other) && (x in vars ==> vars[x] == other[x])
  }

  /** The value of an expression depends on the variables it reads only. */
  lemma {:induction false} EvalAgree(p: Program, fuel: nat, vars: Vars, other: Vars, e: Expr, w: World)
    requires Agree(vars, other, Reads(e))
    ensures Eval(p, fuel, vars, e, w) == Eval(p, fuel, other, e, w)
    decreases e, 1, 0
  {
    match e
    case Cast(_, sub) => EvalAgree(p, fuel, vars, other, sub, w);
    case Plus(_, sub) => EvalAgree(p, fuel, vars, other, sub, w);
    case Minus(_, sub) => EvalAgree(p, fuel, vars, other, sub, w);
    case Binary(_, _, left, right) =>
      EvalAgree(p, fuel, vars, other, left, w);
      var l := Eval(p, fuel, vars, left, w);
      if l.Done? { EvalAgree(p, fuel, vars, other, right, l.world); }
    case Call(_, _, target, _) =>
      if !target.Input? { ArgsAgree(p, fuel, vars, other, e, [], w); }
    case _ =>
  }

  lemma {:induction false} ArgsAgree(p: Program, fuel: nat, vars: Vars, other: Vars, e: Expr, values: seq<int>,
          w: World)
    requires e.Call? && Agree(vars, other, Reads(e))
    ensures EvalArgs(p, fuel, vars, e, values, w) == EvalArgs(p, fuel, other, e, values, w)
    decreases e, 0, |e.args| - |values|
  {
    if |values| < |e.args| {
      var arg := e.args[|values|];
      ReadsOfArg(e, |e.args|, |values|);
      EvalAgree(p, fuel, vars, other, arg, w);
      var r := Eval(p, fuel, vars, arg, w);
      if r.Done? { ArgsAgree(p, fuel, vars, other, e, values + [r.value], r.world); }
    }
  }

  lemma {:induction false} ReadsOfArg(e: Expr, n: nat, i: nat)
    requires e.Call? && i < n <= |e.args|
    ensures Reads(e.args[i]) <= ArgReads(e, n)
  {
    if i < n - 1 { ReadsOfArg(e, n - 1, i); }
  }

  lemma {:induction false} BindDeclsAgree(vars: Vars, decls: seq<Declarator>, values: seq<int>, xs: set<nat>)
    requires |values| <= |decls| && forall i :: 0 <= i < |values| ==> decls[i].variable !in xs
    ensures Agree(BindDecls(vars, decls, values), vars, xs)
  {
    if values != [] { BindDeclsAgree(vars, decls, values[..|values| - 1], xs); }
  }

  /** Evaluating all initialisers before declaring anything comes to the same as going from one declarator to the
      next, if no initialiser reads a variable declared before it in the statement. */
  lemma {:induction false} InitsFirst(p: Program, fuel: nat, vars: Vars, decls: seq<Declarator>, values: seq<int>,
          w: World)
    requires NoEarlierReads(decls) && |values| <= |decls|
    ensures var r := EvalInits(p, fuel, vars, decls, values, w);
      && (r.Done? ==> |r.value| == |decls|)
      && ExecDecls(p, fuel, BindDecls(vars, decls, values), decls[|values|..], w)
        == if r.Done? then Done(BindDecls(vars, decls, r.value), r.world) else Lift(r)
    decreases |decls| - |values|
  {
    var n := |values|;
    if n < |decls| {
      var rest := decls[n..];
      assert rest[0] == decls[n] && rest[1..] == decls[n + 1..];
      var now := BindDecls(vars, decls, values);
      match decls[n]
      case Plain(x) =>
        InitsFirst(p, fuel, vars, decls, values + [0], w);
        assert (values + [0])[..n] == values;
      case Initialised(x, init) =>
        BindDeclsAgree(vars, decls, values, Reads(init));
        EvalAgree(p, fuel, now, vars, init, w);
        var r := Eval(p, fuel, vars, init, w);
        if r.Done? {
          InitsFirst(p, fuel, vars, decls, values + [r.value], r.world);
          assert (values + [r.value])[..n] == values;
        }
    }
  }

  /** What has a value reads variables that exist only. */
  lemma {:induction false} DoneReads(p: Program, fuel: nat, vars: Vars, e: Expr, w: World)
    requires Eval(p, fuel, vars, e, w).Done? && ExprOk(p, e)
    ensures Reads(e) <= vars.Keys
    decreases e, 1, 0
  {
    match e
    case Cast(_, sub) => DoneReads(p, fuel, vars, sub, w);
    case Plus(_, sub) => DoneReads(p, fuel, vars, sub, w);
    case Minus(_, sub) => DoneReads(p, fuel, vars, sub, w);
    case Binary(_, _, left, right) =>
      DoneReads(p, fuel, vars, left, w);
      DoneReads(p, fuel, vars, right, Eval(p, fuel, vars, left, w).world);
    case Call(_, _, target, _) =>
      if target.User? { ArgsDoneReads(p, fuel, vars, e, [], w); }
    case _ =>
  }

  lemma {:induction false} ArgsDoneReads(p: Program, fuel: nat, vars: Vars, e: Expr, values: seq<int>, w: World)
    requires e.Call? && ExprOk(p, e) && |values| <= |e.args| && EvalArgs(p, fuel, vars, e, values, w).Done?
    requires ArgReads(e, |values|) <= vars.Keys
    ensures ArgReads(e, |e.args|) <= vars.Keys
    decreases e, 0, |e.args| - |values|
  {
    if |values| < |e.args| {
      var arg := e.args[|values|];
      DoneReads(p, fuel, vars, arg, w);
      var r := Eval(p, fuel, vars, arg, w);
      ArgsDoneReads(p, fuel, vars, e, values + [r.value], r.world);
    }
  }

  lemma {:induction false} InitsDoneRead(p: Program, fuel: nat, vars: Vars, decls: seq<Declarator>, values: seq<int>,
          w: World)
    requires forall i :: 0 <= i < |decls| && decls[i].Initialised? ==> ExprOk(p, decls[i].init)
    requires |values| <= |decls| && EvalInits(p, fuel, vars, decls, values, w).Done?
    ensures forall i :: |values| <= i < |decls| && decls[i].Initialised? ==> Reads(decls[i].init) <= vars.Keys
    decreases |decls| - |values|
  {
    if |values| < |decls| {
      match decls[|values|]
      case Plain(_) => InitsDoneRead(p, fuel, vars, decls, values + [0], w);
      case Initialised(_, init) =>
        DoneReads(p, fuel, vars, init, w);
        var r := Eval(p, fuel, vars, init, w);
        InitsDoneRead(p, fuel, vars, decls, values + [r.value], r.world);
    }
  }

  /** For variables that are new, evaluating the initialisers first succeeds exactly when the declaration does and no
      initialiser reads a variable declared before it in the statement. */
  lemma InitsFirstIff(p: Program, fuel: nat, vars: Vars, decls: seq<Declarator>, w: World)
    requires forall i :: 0 <= i < |decls| ==> decls[i].variable !in vars
    requires forall i :: 0 <= i < |decls| && decls[i].Initialised? ==> ExprOk(p, decls[i].init)
    ensures EvalInits(p, fuel, vars, decls, [], w).Done?
        <==> ExecDecls(p, fuel, vars, decls, w).Done? && NoEarlierReads(decls)
  {
    hide EvalInits, ExecDecls, Reads, ExprOk;
    if EvalInits(p, fuel, vars, decls, [], w).Done? { InitsDoneRead(p, fuel, vars, decls, [], w); }
    if NoEarlierReads(decls) {
      InitsFirst(p, fuel, vars, decls, [], w);
      assert decls[0..] == decls;
    }
  }

  /** Otherwise it does not: int a = 1, b = a; finds no a. */
  lemma InitsFirstDiffers(p: Program, fuel: nat, w: World)
    ensures var decls := [Initialised(0, Literal(1, 1)), Initialised(1, Cast(2, Ref(3, 0)))];
      && ExecDecls(p, fuel, map[], decls, w) == Done(map[0 := 1, 1 := 1], w)
      && EvalInits(p, fuel, map[], decls, [], w) == Undefined(w)
  {
    var decls := [Initialised(0, Literal(1, 1)), Initialised(1, Cast(2, Ref(3, 0)))];
    assert Eval(p, fuel, map[0 := 1], Cast(2, Ref(3, 0)), w) == Done(1, w);
    assert ExecDecls(p, fuel, map[0 := 1], decls[1..], w)
      == ExecDecls(p, fuel, map[0 := 1, 1 := 1], decls[1..][1..], w);
    assert Eval(p, fuel, map[], Cast(2, Ref(3, 0)), w) == Undefined(w);
    assert EvalInits(p, fuel, map[], decls, [1], w) == Undefined(w);
    assert [] + [1] == [1];
  }

  /** And if there was an a before, as in a later turn of a loop, it finds that one. */
  lemma InitsFirstStale(p: Program, fuel: nat, w: World, v: int)
    ensures var decls := [Initialised(0, Literal(1, 1)), Initialised(1, Cast(2, Ref(3, 0)))];
      && ExecDecls(p, fuel, map[0 := v], decls, w) == Done(map[0 := 1, 1 := 1], w)
      && InitsThenBind(p, fuel, map[0 := v], decls, w) == Done(map[0 := 1, 1 := v], w)
  {
    var decls := [Initialised(0, Literal(1, 1)), Initialised(1, Cast(2, Ref(3, 0)))];
    var one: Vars := map[0 := 1];
    assert Eval(p, fuel, one, Cast(2, Ref(3, 0)), w) == Done(1, w);
    assert ExecDecls(p, fuel, one, decls[1..], w) == ExecDecls(p, fuel, map[0 := 1, 1 := 1], decls[1..][1..], w);
    assert map[0 := v][0 := 1] == one;
    assert Eval(p, fuel, map[0 := v], Cast(2, Ref(3, 0)), w) == Done(v, w);
    assert EvalInits(p, fuel, map[0 := v], decls, [1, v], w) == Done([1, v], w);
    assert EvalInits(p, fuel, map[0 := v], decls, [1], w) == Done([1, v], w) by { assert [1] + [v] == [1, v]; }
    assert EvalInits(p, fuel, map[0 := v], decls, [], w) == Done([1, v], w) by { assert [] + [1] == [1]; }
    assert [1, v][..1] == [1] && [1][..0] == [];
    assert BindDecls(map[0 := v], decls, [1]) == one;
    assert BindDecls(map[0 := v], decls, [1, v]) == map[0 := 1, 1 := v];
  }
}
