/** What small programs of MiniC do, for every input: the operators compute what C says they do. */
module MiniCPrograms {
  import opened MiniC

  /** Of two values one is less, or they are equal; the other comparisons follow from that. */
  lemma ComparisonsAgree(a: int, b: int)
    ensures Apply(Lt, a, b) + Apply(Gt, a, b) + Apply(Eq, a, b) == 1
    ensures Apply(Gt, a, b) == Apply(Lt, b, a) && (Apply(Eq, a, b) == 1 <==> Apply(Sub, a, b) == 0)
    ensures Apply(Lt, a, b) == 1 <==> exists d :: d > 0 && Apply(Add, a, d) == b
    ensures Apply(Ge, a, b) == 1 - Apply(Lt, a, b)
    ensures Apply(Le, a, b) == 1 - Apply(Gt, a, b)
    ensures Apply(Ne, a, b) == 1 - Apply(Eq, a, b)
  {
    assert Apply(Add, a, b - a) == b;
  }

  /** The variable x, read at the nodes id and id + 1. */
  function Value(id: nat, x: nat): Expr {
    Cast(id, Ref(id + 1, x))
  }

  function Callee(id: nat): Expr {
    Cast(id, FunctionRef(id + 1))
  }

  // ----- int n = GET(), i; while (i < n) { PRINT(i); i = i + 1; } -----

  const N: nat := 0
  const I: nat := 1

  const COUNT_BODY := Then(Output(20, Callee(21), Value(23, I)),
    Then(Assign(30, 31, I, Binary(32, Add, Value(33, I), Literal(35, 1))), End))

  const COUNT_LOOP := While(Binary(10, Lt, Value(11, I), Value(13, N)), COUNT_BODY)

  const COUNT := Then(Declare([Initialised(N, Call(1, Callee(2), Input, [])), Plain(I)]), Then(COUNT_LOOP, End))

  function UpTo(n: int): seq<int> {
    if n <= 0 then [] else UpTo(n - 1) + [n - 1]
  }

  function Counting(n: int, i: int): Vars {
    map[N := n, I := i]
  }

  lemma ValueOk(p: Program, id: nat, x: nat)
    ensures ExprOk(p, Value(id, x)) && Ids(Value(id, x)) == {id, id + 1}
  {}

  lemma LoopOk(p: Program)
    ensures BlockOk(p, Then(COUNT_LOOP, End))
  {
    CountBodyOk(p);
    hide Value;
    ValueOk(p, 11, I);
    ValueOk(p, 13, N);
    assert ExprOk(p, COUNT_LOOP.cond);
    assert StmtOk(p, COUNT_LOOP) && BlockOk(p, End);
  }

  lemma CountBodyOk(p: Program)
    ensures BlockOk(p, COUNT_BODY)
  {
    hide Value;
    ValueOk(p, 23, I);
    ValueOk(p, 33, I);
    assert ExprOk(p, Literal(35, 1)) && Ids(Literal(35, 1)) == {35};
    assert ExprOk(p, Binary(32, Add, Value(33, I), Literal(35, 1)));
    assert BlockOk(p, End) && StmtOk(p, COUNT_BODY.rest.first);
    assert BlockOk(p, COUNT_BODY.rest);
  }

  lemma CountWellFormed()
    ensures BlockOk([], COUNT)
  {
    LoopOk([]);
    var init := COUNT.first.decls[0].init;
    assert ExprOk([], init) by { assert Ids(init.callee) == {2, 3}; }
    assert StmtOk([], COUNT.first);
    assert COUNT.rest == Then(COUNT_LOOP, End);
  }

  lemma CountTurn(fuel: nat, n: int, i: int, w: World)
    requires i < n && IsInt(n) && 0 <= i
    ensures ExecBlock([], fuel, Counting(n, i), COUNT_BODY, w)
      == Done(Counting(n, i + 1), w.(output := w.output + [i]))
  {
    var vars := Counting(n, i);
    var printed := w.(output := w.output + [i]);
    assert Eval([], fuel, vars, Value(23, I), w) == Done(i, w);
    assert Eval([], fuel, vars, Value(33, I), printed) == Done(i, printed);
    assert Eval([], fuel, vars, Literal(35, 1), printed) == Done(1, printed);
    assert Exec([], fuel, vars, COUNT_BODY.rest.first, printed) == Done(vars[I := i + 1], printed);
    assert ExecBlock([], fuel, Counting(n, i + 1), End, printed) == Done(Counting(n, i + 1), printed);
    assert vars[I := i + 1] == Counting(n, i + 1);
    assert ExecBlock([], fuel, vars, COUNT_BODY.rest, printed) == Done(Counting(n, i + 1), printed);
  }

  lemma {:induction false} CountLoop(fuel: nat, n: nat, i: nat, w: World)
    requires i <= n <= fuel + i && IsInt(n) && w.output == UpTo(i)
    ensures Exec([], fuel, Counting(n, i), COUNT_LOOP, w) == Done(Counting(n, n), w.(output := UpTo(n)))
    decreases n - i
  {
    hide ExecBlock;
    var vars := Counting(n, i);
    assert Eval([], fuel, vars, Value(11, I), w) == Done(i, w) && Eval([], fuel, vars, Value(13, N), w) == Done(n, w);
    assert Eval([], fuel, vars, COUNT_LOOP.cond, w) == Done(Truth(i < n), w);
    if i < n {
      CountTurn(fuel, n, i, w);
      CountLoop(fuel - 1, n, i + 1, w.(output := w.output + [i]));
    }
  }

  /** The program reads n, 0 if there is nothing to read, and prints 0 to n - 1, for every n. */
  lemma CountPrints(fuel: nat, input: seq<int>)
    requires var n := if input == [] then 0 else input[0]; IsInt(n) && n <= fuel
    ensures var n := if input == [] then 0 else input[0];
      var last := if n < 0 then 0 else n;
      var after := World(if input == [] then [] else input[1..], UpTo(n));
      ExecBlock([], fuel, map[], COUNT, World(input, [])) == Done(Counting(n, last), after)
  {
    var start, n := World(input, []), if input == [] then 0 else input[0];
    var w := World(if input == [] then [] else input[1..], []);
    var decls := COUNT.first.decls;
    assert Eval([], fuel, map[], decls[0].init, start) == Done(n, w);
    assert decls[1..][1..] == [] && map[][N := n][I := 0] == Counting(n, 0);
    assert ExecDecls([], fuel, map[][N := n], decls[1..], w) == Done(Counting(n, 0), w);
    assert ExecDecls([], fuel, map[], decls, start) == Done(Counting(n, 0), w);
    CountLoopAny(fuel, n, w);
    var last := if n < 0 then 0 else n;
    var end := w.(output := UpTo(n));
    assert ExecBlock([], fuel, Counting(n, last), End, end) == Done(Counting(n, last), end);
    assert ExecBlock([], fuel, Counting(n, 0), COUNT.rest, w) == Done(Counting(n, last), end);
  }

  lemma CountLoopAny(fuel: nat, n: int, w: World)
    requires IsInt(n) && n <= fuel && w.output == []
    ensures var last := if n < 0 then 0 else n;
      Exec([], fuel, Counting(n, 0), COUNT_LOOP, w) == Done(Counting(n, last), w.(output := UpTo(n)))
  {
    if n >= 0 {
      CountLoop(fuel, n, 0, w);
    } else {
      var vars := Counting(n, 0);
      assert Eval([], fuel, vars, Value(11, I), w) == Done(0, w) && Eval([], fuel, vars, Value(13, N), w) == Done(n, w);
      assert Eval([], fuel, vars, COUNT_LOOP.cond, w) == Done(0, w);
    }
  }

  // ----- int f(int n) { int r = 1; if (n >= 1) r = n * f(n - 1); return r; } -----

  const R: nat := 1

  const SMALLER := Binary(16, Sub, Value(17, N), Literal(19, 1))

  const RECURSION := Call(13, Callee(14), User(0), [SMALLER])

  const PRODUCT := Binary(10, Mul, Value(11, N), RECURSION)

  const FACT_IF := If(Binary(3, Ge, Value(4, N), Literal(6, 1)), Then(Assign(8, 9, R, PRODUCT), End), End)

  const FACT: Program :=
    [Function([N], Then(Declare([Initialised(R, Literal(2, 1))]), Then(FACT_IF, End)), 30, Value(31, R))]

  lemma RecursionOk()
    ensures ExprOk(FACT, RECURSION) && Ids(RECURSION) == {13, 14, 15, 16, 17, 18, 19}
  {
    hide Value;
    ValueOk(FACT, 17, N);
    assert ExprOk(FACT, SMALLER) && Ids(SMALLER) == {16, 17, 18, 19};
    assert Ids(RECURSION.callee) == {14, 15};
    assert ArgIds(RECURSION, 1) == {16, 17, 18, 19} by { assert ArgIds(RECURSION, 0) == {}; }
  }

  lemma ProductOk()
    ensures ExprOk(FACT, PRODUCT) && 9 !in Ids(PRODUCT)
  {
    RecursionOk();
    hide Value, ExprOk, Ids;
    ValueOk(FACT, 11, N);
    BinaryOk(FACT, 10, Mul, Value(11, N), RECURSION);
  }

  lemma BinaryOk(p: Program, id: nat, op: Operator, left: Expr, right: Expr)
    requires ExprOk(p, left) && ExprOk(p, right) && Ids(left) !! Ids(right) && id !in Ids(left) + Ids(right)
    ensures ExprOk(p, Binary(id, op, left, right)) && Ids(Binary(id, op, left, right)) == {id} + Ids(left) + Ids(right)
  {}

  lemma FactWellFormed()
    ensures ProgramOk(FACT)
  {
    ProductOk();
    hide Value;
    ValueOk(FACT, 4, N);
    ValueOk(FACT, 31, R);
    assert ExprOk(FACT, FACT_IF.cond);
    assert BlockOk(FACT, End) && BlockOk(FACT, FACT_IF.yes);
    assert BlockOk(FACT, Then(FACT_IF, End));
    assert StmtOk(FACT, FACT[0].body.first);
  }

  function Factorial(n: int): (f: int)
    ensures f >= 1
  {
    if n < 1 then 1 else Times(n, Factorial(n - 1))
  }

  function Times(a: int, b: int): (r: int)
    ensures a >= 1 && b >= 1 ==> r >= b
  {
    a * b
  }

  function Running(n: int, r: int): Vars {
    map[N := n, R := r]
  }

  lemma FactArgument(fuel: nat, n: int, w: World)
    requires IsInt(n) && n >= 1
    ensures EvalArgs(FACT, fuel, Running(n, 1), RECURSION, [], w) == Done([n - 1], w)
  {
    var vars := Running(n, 1);
    assert Eval(FACT, fuel, vars, Value(17, N), w) == Done(n, w);
    assert Eval(FACT, fuel, vars, Literal(19, 1), w) == Done(1, w);
    assert Eval(FACT, fuel, vars, SMALLER, w) == Done(n - 1, w);
    assert RECURSION.args[0] == SMALLER && |RECURSION.args| == 1;
    assert [] + [n - 1] == [n - 1];
  }

  lemma FactProduct(fuel: nat, n: int, w: World)
    requires IsInt(n) && n >= 1 && CallUser(FACT, fuel, 0, [n - 1], w) == Fit(Factorial(n - 1), w)
    ensures Eval(FACT, fuel, Running(n, 1), PRODUCT, w) == Fit(Factorial(n), w)
  {
    hide CallUser, EvalArgs;
    var vars := Running(n, 1);
    FactArgument(fuel, n, w);
    assert Eval(FACT, fuel, vars, Value(11, N), w) == Done(n, w);
    assert Eval(FACT, fuel, vars, RECURSION, w) == Fit(Factorial(n - 1), w);
  }

  lemma FactIf(fuel: nat, n: int, w: World)
    requires IsInt(n)
    requires n >= 1 ==> CallUser(FACT, fuel, 0, [n - 1], w) == Fit(Factorial(n - 1), w)
    ensures Exec(FACT, fuel, Running(n, 1), FACT_IF, w)
      == if IsInt(Factorial(n)) then Done(Running(n, Factorial(n)), w) else Undefined(w)
  {
    hide CallUser, EvalArgs;
    var vars, f := Running(n, 1), Factorial(n);
    assert Eval(FACT, fuel, vars, Value(4, N), w) == Done(n, w);
    assert Eval(FACT, fuel, vars, Literal(6, 1), w) == Done(1, w);
    assert Eval(FACT, fuel, vars, FACT_IF.cond, w) == Done(Truth(n >= 1), w);
    if n >= 1 {
      FactProduct(fuel, n, w);
      assert vars[R := f] == Running(n, f);
      assert ExecBlock(FACT, fuel, Running(n, f), End, w) == Done(Running(n, f), w);
      assert ExecBlock(FACT, fuel, vars, FACT_IF.yes, w)
        == if IsInt(f) then Done(Running(n, f), w) else Undefined(w);
    } else {
      assert ExecBlock(FACT, fuel, vars, End, w) == Done(vars, w);
    }
  }

  lemma FactBody(fuel: nat, n: int, w: World)
    requires IsInt(n)
    requires n >= 1 ==> CallUser(FACT, fuel, 0, [n - 1], w) == Fit(Factorial(n - 1), w)
    ensures ExecBlock(FACT, fuel, map[N := n], FACT[0].body, w)
      == if IsInt(Factorial(n)) then Done(Running(n, Factorial(n)), w) else Undefined(w)
  {
    hide CallUser;
    var vars, start: Vars, b := Running(n, 1), map[N := n], FACT[0].body;
    FactIf(fuel, n, w);
    assert start[R := 1] == vars;
    assert Eval(FACT, fuel, start, Literal(2, 1), w) == Done(1, w);
    assert b.first.decls[1..] == [];
    assert ExecDecls(FACT, fuel, start, b.first.decls, w) == Done(vars, w);
    if IsInt(Factorial(n)) {
      assert ExecBlock(FACT, fuel, Running(n, Factorial(n)), End, w) == Done(Running(n, Factorial(n)), w);
    }
    assert ExecBlock(FACT, fuel, vars, b.rest, w)
      == if IsInt(Factorial(n)) then Done(Running(n, Factorial(n)), w) else Undefined(w);
  }

  /** A call of f gives the factorial if that is an int, and is undefined otherwise. */
  lemma {:induction false} FactComputes(fuel: nat, n: int, w: World)
    requires IsInt(n) && n < fuel && 0 < fuel
    ensures CallUser(FACT, fuel, 0, [n], w) == Fit(Factorial(n), w)
    decreases fuel
  {
    hide ExecBlock;
    var f := Factorial(n);
    if n >= 1 { FactComputes(fuel - 1, n - 1, w); }
    FactBody(fuel - 1, n, w);
    assert [N][..0] == [] && [n][..0] == [] && Bind([N], [n]) == map[N := n];
    assert FACT[0].params == [N];
    if IsInt(f) { assert Eval(FACT, fuel - 1, Running(n, f), Value(31, R), w) == Done(f, w); }
  }

  // ----- PRINT(GET() - GET()); and int f(int x, int y) { return x - y; } PRINT(f(GET(), GET())); -----

  function Get(id: nat): Expr {
    Call(id, Callee(id + 1), Input, [])
  }

  const DIFFERENCE := Then(Output(1, Callee(2), Binary(4, Sub, Get(5), Get(8))), End)

  const X: nat := 0
  const Y: nat := 1

  const MINUS: Program := [Function([X, Y], End, 30, Binary(31, Sub, Value(32, X), Value(34, Y)))]

  const CALL_MINUS := Call(4, Callee(20), User(0), [Get(5), Get(8)])

  const DIFFERENCE_BY_CALL := Then(Output(1, Callee(2), CALL_MINUS), End)

  /** What is left of the input, and the difference of its first two numbers if that is an int. */
  function Printed(vars: Vars, input: seq<int>): Result<Vars>
    requires |input| >= 2
  {
    var d, rest := input[0] - input[1], input[2..];
    if IsInt(d) then Done(vars, World(rest, [d])) else Undefined(World(rest, []))
  }

  lemma GetReads(p: Program, fuel: nat, vars: Vars, id: nat, input: seq<int>)
    requires input != []
    ensures Eval(p, fuel, vars, Get(id), World(input, [])) == Done(input[0], World(input[1..], []))
  {}

  /** The left operand is evaluated first, and the right one is subtracted from it. */
  lemma DifferencePrints(fuel: nat, input: seq<int>)
    requires |input| >= 2
    ensures ExecBlock([], fuel, map[], DIFFERENCE, World(input, [])) == Printed(map[], input)
  {
    GetReads([], fuel, map[], 5, input);
    GetReads([], fuel, map[], 8, input[1..]);
    hide Get;
    assert input[1..][1..] == input[2..] && [] + [input[0] - input[1]] == [input[0] - input[1]];
    var w := World(input, []);
    assert Eval([], fuel, map[], DIFFERENCE.first.arg, w) == Fit(input[0] - input[1], World(input[2..], []));
    assert ExecBlock([], fuel, map[], End, World(input[2..], [input[0] - input[1]]))
      == Done(map[], World(input[2..], [input[0] - input[1]]));
  }

  lemma MinusReturns(fuel: nat, a: int, b: int, w: World)
    requires fuel > 0
    ensures CallUser(MINUS, fuel, 0, [a, b], w) == Fit(a - b, w)
  {
    var vars: Vars := map[X := a, Y := b];
    assert [X, Y][..1] == [X] && [a, b][..1] == [a] && [X][..0] == [] && [a][..0] == [];
    assert Bind([X], [a]) == map[X := a] && Bind([X, Y], [a, b]) == vars;
    assert MINUS[0].params == [X, Y];
    assert ExecBlock(MINUS, fuel - 1, vars, End, w) == Done(vars, w);
    assert Eval(MINUS, fuel - 1, vars, Value(32, X), w) == Done(a, w);
    assert Eval(MINUS, fuel - 1, vars, Value(34, Y), w) == Done(b, w);
    assert Eval(MINUS, fuel - 1, vars, MINUS[0].result, w) == Fit(a - b, w);
  }

  lemma MinusArguments(fuel: nat, input: seq<int>)
    requires |input| >= 2
    ensures EvalArgs(MINUS, fuel, map[], CALL_MINUS, [], World(input, []))
      == Done([input[0], input[1]], World(input[2..], []))
  {
    GetReads(MINUS, fuel, map[], 5, input);
    GetReads(MINUS, fuel, map[], 8, input[1..]);
    hide Get;
    assert CALL_MINUS.args[0] == Get(5) && CALL_MINUS.args[1] == Get(8);
    assert input[1..][1..] == input[2..];
    assert [] + [input[0]] == [input[0]] && [input[0]] + [input[1]] == [input[0], input[1]];
    assert EvalArgs(MINUS, fuel, map[], CALL_MINUS, [input[0]], World(input[1..], []))
      == EvalArgs(MINUS, fuel, map[], CALL_MINUS, [input[0], input[1]], World(input[2..], []));
  }

  /** So with a call: arguments are evaluated from left to right, and go to the parameters in order. */
  lemma DifferenceByCallPrints(fuel: nat, input: seq<int>)
    requires |input| >= 2 && fuel > 0
    ensures ExecBlock(MINUS, fuel, map[], DIFFERENCE_BY_CALL, World(input, [])) == Printed(map[], input)
  {
    MinusArguments(fuel, input);
    MinusReturns(fuel, input[0], input[1], World(input[2..], []));
    hide Get, CallUser, EvalArgs;
    var w, d := World(input, []), input[0] - input[1];
    assert [] + [d] == [d];
    assert Eval(MINUS, fuel, map[], CALL_MINUS, w) == Fit(d, World(input[2..], []));
    assert ExecBlock(MINUS, fuel, map[], End, World(input[2..], [d])) == Done(map[], World(input[2..], [d]));
  }
}
