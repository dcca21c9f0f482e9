/** The grammar the parser of kaleidoscope/ast is meant for, given by derivation trees, and the proof that the
    parser accepts exactly the sentences of that grammar, with the tree precedence and associativity ask for. */
module Grammar {
  import opened Wrappers
  import opened Parsing

  /** How a list of tokens is derived; parentheses are part of a tree, but not of the expression it stands for. */
  datatype Tree =
    | Literal(lexeme: string)
    | Name(name: string)
    | Call(callee: string, args: seq<Tree>)
    | Paren(inner: Tree)
    | Infix(op: char, lhs: Tree, rhs: Tree)

  function Yield(t: Tree): (ts: seq<Token>)
    ensures ts != []
    decreases t, 1, 0
  {
    match t
    case Literal(lexeme) => [Number(lexeme)]
    case Name(name) => [Identifier(name)]
    case Call(callee, args) => [Identifier(callee), Char('(')] + YieldArgs(t, 0) + [Char(')')]
    case Paren(inner) => [Char('(')] + Yield(inner) + [Char(')')]
    case Infix(op, lhs, rhs) => Yield(lhs) + [Char(op)] + Yield(rhs)
  }

  /** The arguments of a call from the i-th on, with commas between them. */
  function YieldArgs(t: Tree, i: nat): seq<Token>
    requires t.Call?
    decreases t, 0, |t.args| - i
  {
    if i >= |t.args| then []
    else if i == |t.args| - 1 then Yield(t.args[i])
    else Yield(t.args[i]) + [Char(',')] + YieldArgs(t, i + 1)
  }

  function Ast(t: Tree): Expr {
    match t
    case Literal(lexeme) => NumberExpr(lexeme)
    case Name(name) => VariableExpr(name)
    case Call(callee, args) => CallExpr(callee, seq(|args|, i requires 0 <= i < |args| => Ast(args[i])))
    case Paren(inner) => Ast(inner)
    case Infix(op, lhs, rhs) => BinaryExpr(op, Ast(lhs), Ast(rhs))
  }

  /** An operand without parentheses of its own binds at least as tightly as the operator on its right, and more
      tightly than the operator on its left: operators of the same precedence associate to the left. */
  predicate WellBound(p: Table, t: Tree) {
    match t
    case Call(_, args) => forall i :: 0 <= i < |args| ==> WellBound(p, args[i])
    case Paren(inner) => WellBound(p, inner)
    case Infix(op, lhs, rhs) =>
      && Precedence(p, op) > 0
      && WellBound(p, lhs) && (lhs.Infix? ==> Precedence(p, lhs.op) >= Precedence(p, op))
      && WellBound(p, rhs) && (rhs.Infix? ==> Precedence(p, rhs.op) > Precedence(p, op))
    case _ => true
  }

  predicate EndsInName(t: Tree) {
    t.Name? || (t.Infix? && EndsInName(t.rhs))
  }

  /** What can follow t without being taken for a part of it: no operator, and after a name no parenthesis. */
  predicate Stops(p: Table, t: Tree, rest: seq<Token>) {
    TokPrec(p, rest) < 0 && (EndsInName(t) ==> !StartsWith(rest, '('))
  }

  /** The table leaves the punctuation of the grammar alone. */
  predicate PunctuationFree(p: Table) {
    Precedence(p, '(') < 0 && Precedence(p, ')') < 0 && Precedence(p, ',') < 0
  }

  // ----- Every derived sentence is parsed, to the expression of its tree -----

  /** The leftmost operand of t. */
  function First(t: Tree): (f: Tree)
    ensures !f.Infix?
  {
    if t.Infix? then First(t.lhs) else t
  }

  /** What follows the leftmost operand. */
  function Tail(t: Tree): seq<Token> {
    if t.Infix? then Tail(t.lhs) + [Char(t.op)] + Yield(t.rhs) else []
  }

  lemma {:induction false} FirstThenTail(p: Table, t: Tree)
    ensures Yield(t) == Yield(First(t)) + Tail(t)
    ensures WellBound(p, t) ==> WellBound(p, First(t))
    ensures First(t) == t || First(t) < t
  {
    if t.Infix? {
      FirstThenTail(p, t.lhs);
      assert Yield(t) == Yield(First(t)) + Tail(t);
    }
  }

  /** The operator the tail starts with is the innermost one on the left, which binds the most tightly. */
  lemma {:induction false} TailStart(p: Table, t: Tree, rest: seq<Token>)
    requires WellBound(p, t) && t.Infix?
    ensures TokPrec(p, Tail(t) + rest) >= Precedence(p, t.op)
  {
    if t.lhs.Infix? {
      var more := [Char(t.op)] + Yield(t.rhs) + rest;
      TailStart(p, t.lhs, more);
      assert Tail(t) + rest == Tail(t.lhs) + more;
    } else {
      assert (Tail(t) + rest)[0] == Char(t.op);
    }
  }

  lemma {:induction false} PrimaryIsParsed(p: Table, t: Tree, rest: seq<Token>)
    requires PunctuationFree(p) && WellBound(p, t) && !t.Infix? && (t.Name? ==> !StartsWith(rest, '('))
    ensures ParsePrimary(p, Yield(t) + rest) == Parsed(Some(Ast(t)), rest)
    decreases t, 2, 0
  {
    hide ParseExpression, Precedence;
    var ts := Yield(t) + rest;
    match t
    case Literal(lexeme) => assert ts[1..] == rest;
    case Name(name) => assert ts[1..] == rest;
    case Paren(inner) =>
      var close := [Char(')')] + rest;
      ExpressionIsParsed(p, inner, close);
      assert ts[1..] == Yield(inner) + close;
      assert close[1..] == rest;
    case Call(callee, args) =>
      assert ts[1..] == [Char('(')] + YieldArgs(t, 0) + [Char(')')] + rest;
      CallIsParsed(p, t, rest);
  }

  lemma {:induction false} CallIsParsed(p: Table, t: Tree, rest: seq<Token>)
    requires PunctuationFree(p) && WellBound(p, t) && t.Call?
    ensures ParseIdentifier(p, t.callee, [Char('(')] + YieldArgs(t, 0) + [Char(')')] + rest)
      == Parsed(Some(Ast(t)), rest)
    decreases t, 1, 0
  {
    hide ParseExpression, ParseArgs, Precedence, PunctuationFree, WellBound;
    var ts := [Char('(')] + YieldArgs(t, 0) + [Char(')')] + rest;
    var close := [Char(')')] + rest;
    assert ts[1..] == YieldArgs(t, 0) + close;
    if t.args == [] {
      assert ts[2..] == rest;
      assert Ast(t) == CallExpr(t.callee, []);
    } else {
      ArgsStart(t, close);
      ArgsAreParsed(p, t, 0, [], rest);
      assert ts[1..] == ArgsThen(t, 0, rest);
      assert Ast(t) == CallExpr(t.callee, Ast(t).args);
    }
  }

  /** An argument does not start with the closing parenthesis. */
  lemma {:induction false} YieldStart(t: Tree)
    ensures Yield(t)[0] != Char(')')
  {
    if t.Infix? { YieldStart(t.lhs); }
  }

  lemma ArgsStart(t: Tree, rest: seq<Token>)
    requires t.Call? && t.args != []
    ensures !StartsWith(YieldArgs(t, 0) + rest, ')')
  {
    YieldStart(t.args[0]);
    assert (YieldArgs(t, 0) + rest)[0] == Yield(t.args[0])[0];
  }

  /** What is left to read of the arguments from the i-th on. */
  function ArgsThen(t: Tree, i: nat, rest: seq<Token>): seq<Token>
    requires t.Call?
  {
    YieldArgs(t, i) + [Char(')')] + rest
  }

  lemma ArgThenMore(t: Tree, i: nat, rest: seq<Token>) returns (more: seq<Token>)
    requires t.Call? && i < |t.args|
    ensures ArgsThen(t, i, rest) == Yield(t.args[i]) + more && more != []
    ensures i == |t.args| - 1 ==> more[0] == Char(')') && more[1..] == rest
    ensures i < |t.args| - 1 ==> more[0] == Char(',') && more[1..] == ArgsThen(t, i + 1, rest)
  {
    if i == |t.args| - 1 {
      more := [Char(')')] + rest;
    } else {
      more := [Char(',')] + ArgsThen(t, i + 1, rest);
    }
  }

  lemma {:induction false} ArgsAreParsed(p: Table, t: Tree, i: nat, done: seq<Expr>, rest: seq<Token>)
    requires PunctuationFree(p) && t.Call? && WellBound(p, t) && i < |t.args| && done == Ast(t).args[..i]
    ensures ParseArgs(p, done, ArgsThen(t, i, rest)) == Parsed(Some(Ast(t).args), rest)
    decreases t, 0, |t.args| - i
  {
    var arg := t.args[i];
    assert done + [Ast(arg)] == Ast(t).args[..i + 1] && Ast(t).args[..|t.args|] == Ast(t).args;
    hide ParseExpression, ParseArgs, Precedence, EndsInName, Yield, ArgsThen, Ast;
    var more := ArgThenMore(t, i, rest);
    ExpressionIsParsed(p, arg, more);
    OneArgument(p, done, ArgsThen(t, i, rest), Ast(arg), more);
    if i < |t.args| - 1 { ArgsAreParsed(p, t, i + 1, done + [Ast(arg)], rest); }
  }

  /** One turn of the argument loop. */
  lemma OneArgument(p: Table, done: seq<Expr>, ts: seq<Token>, arg: Expr, rest: seq<Token>)
    requires ParseExpression(p, ts) == Parsed(Some(arg), rest)
    ensures StartsWith(rest, ')') ==> ParseArgs(p, done, ts) == Parsed(Some(done + [arg]), rest[1..])
    ensures StartsWith(rest, ',') ==> ParseArgs(p, done, ts) == ParseArgs(p, done + [arg], rest[1..])
  {
    hide ParseExpression;
  }

  lemma {:induction false} ExpressionIsParsed(p: Table, t: Tree, rest: seq<Token>)
    requires PunctuationFree(p) && WellBound(p, t) && Stops(p, t, rest)
    ensures ParseExpression(p, Yield(t) + rest) == Parsed(Some(Ast(t)), rest)
    decreases t, 4, 0
  {
    OperandIsParsed(p, t, rest);
    RhsIsParsed(p, 0, t, rest);
  }

  /** The first operand of t is parsed, up to the rest of t. */
  lemma {:induction false} OperandIsParsed(p: Table, t: Tree, rest: seq<Token>)
    requires PunctuationFree(p) && WellBound(p, t) && (EndsInName(t) ==> !StartsWith(rest, '('))
    ensures ParsePrimary(p, Yield(t) + rest) == Parsed(Some(Ast(First(t))), Tail(t) + rest)
    decreases t, 3, 0
  {
    FirstThenTail(p, t);
    assert Yield(t) + rest == Yield(First(t)) + (Tail(t) + rest);
    if t.Infix? { TailStart(p, t, rest); } else { assert Tail(t) + rest == rest; }
    PrimaryIsParsed(p, First(t), Tail(t) + rest);
  }

  /** After an operator of precedence prec all of its right operand is read. */
  lemma {:induction false} RightOperandIsParsed(p: Table, prec: nat, t: Tree, rest: seq<Token>)
    requires PunctuationFree(p) && WellBound(p, t) && (EndsInName(t) ==> !StartsWith(rest, '('))
    requires TokPrec(p, rest) <= prec && (t.Infix? ==> prec < Precedence(p, t.op))
    ensures ParseOperand(p, prec, Yield(t) + rest) == Parsed(Some(Ast(t)), rest)
    decreases t, 4, 0
  {
    hide PunctuationFree, WellBound, EndsInName, Precedence;
    OperandIsParsed(p, t, rest);
    if t.Infix? {
      TailStart(p, t, rest);
      RhsIsParsed(p, prec + 1, t, rest);
    } else {
      assert Tail(t) + rest == rest;
    }
  }

  /** Having read the first operand of t, the operator loop goes on as if it had read all of t. */
  lemma {:induction false} RhsIsParsed(p: Table, min: nat, t: Tree, rest: seq<Token>)
    requires PunctuationFree(p) && WellBound(p, t) && (EndsInName(t) ==> !StartsWith(rest, '('))
    requires t.Infix? ==> min <= Precedence(p, t.op) && TokPrec(p, rest) <= Precedence(p, t.op)
    ensures ParseBinOpRhs(p, min, Ast(First(t)), Tail(t) + rest) == ParseBinOpRhs(p, min, Ast(t), rest)
    decreases t, 2, 0
  {
    hide ParseOperand, ParsePrimary, ParseBinOpRhs, ParseExpression, Precedence, Yield;
    if t.Infix? {
      var here := [Char(t.op)] + (Yield(t.rhs) + rest);
      assert Tail(t) + rest == Tail(t.lhs) + here;
      assert here[1..] == Yield(t.rhs) + rest;
      hide Tail;
      RhsIsParsed(p, min, t.lhs, here);
      RightOperandIsParsed(p, Precedence(p, t.op), t.rhs, rest);
      OneOperator(p, min, Ast(t.lhs), Ast(t.rhs), here, rest);
    } else {
      assert Tail(t) + rest == rest;
    }
  }

  /** One turn of the operator loop. */
  lemma OneOperator(p: Table, min: nat, lhs: Expr, rhs: Expr, ts: seq<Token>, rest: seq<Token>)
    requires TokPrec(p, ts) >= min && ParseOperand(p, TokPrec(p, ts), ts[1..]) == Parsed(Some(rhs), rest)
    ensures ParseBinOpRhs(p, min, lhs, ts) == ParseBinOpRhs(p, min, BinaryExpr(ts[0].c, lhs, rhs), rest)
  {
    hide ParseOperand, ParsePrimary;
  }
}
