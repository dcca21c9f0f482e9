/** What the parser accepts is exactly what the grammar derives; printing an expression with the fewest
    parentheses and parsing it gives it back. */
module ParserCorrect {
  import opened Wrappers
  import opened Parsing
  import opened Grammar

  // ----- Only derived sentences are parsed -----

  /** t derives what was consumed between ts and rest, and stands for e. */
  ghost predicate Derives(p: Table, t: Tree, e: Expr, ts: seq<Token>, rest: seq<Token>) {
    WellBound(p, t) && Ast(t) == e && ts == Yield(t) + rest && (EndsInName(t) ==> !StartsWith(rest, '('))
  }

  lemma {:induction false} PrimarySound(p: Table, ts: seq<Token>) returns (t: Tree)
    requires ParsePrimary(p, ts).result.Some?
    ensures !t.Infix?
    ensures Derives(p, t, ParsePrimary(p, ts).result.value, ts, ParsePrimary(p, ts).rest)
    decreases |ts|, 1
  {
    hide ParseExpression, Precedence;
    var r := ParsePrimary(p, ts);
    match ts[0]
    case Number(lexeme) => t := Literal(lexeme);
    case Identifier(name) => t := IdentifierSound(p, name, ts[1..]);
      assert ts == [ts[0]] + ts[1..];
    case Char(c) =>
      var v := ParseExpression(p, ts[1..]);
      var inner := ExpressionSound(p, ts[1..]);
      t := Paren(inner);
      assert ts == [Char('(')] + ts[1..];
      assert v.rest == [Char(')')] + v.rest[1..];
      assert ts == Yield(t) + r.rest;
  }

  lemma {:induction false} IdentifierSound(p: Table, name: string, ts: seq<Token>) returns (t: Tree)
    requires ParseIdentifier(p, name, ts).result.Some?
    ensures !t.Infix?
    ensures Derives(p, t, ParseIdentifier(p, name, ts).result.value, [Identifier(name)] + ts,
      ParseIdentifier(p, name, ts).rest)
    decreases |ts|, 3
  {
    hide ParseExpression, Precedence, ParseArgs;
    var r := ParseIdentifier(p, name, ts);
    if !StartsWith(ts, '(') {
      t := Name(name);
    } else if StartsWith(ts[1..], ')') {
      t := Call(name, []);
      assert ts == [Char('(')] + ts[1..] == [Char('('), Char(')')] + ts[2..];
      assert [Identifier(name)] + ts == Yield(t) + r.rest;
    } else {
      t := ArgsSound(p, name, [], [], ts[1..]);
      hide Ast, WellBound, StartsWith;
      assert ts == [Char('(')] + ts[1..];
      CallYield(t, ts[1..], r.rest);
    }
  }

  lemma CallYield(t: Tree, ts: seq<Token>, rest: seq<Token>)
    requires t.Call? && ts == YieldArgs(t, 0) + [Char(')')] + rest
    ensures [Identifier(t.callee)] + ([Char('(')] + ts) == Yield(t) + rest
  {
    hide YieldArgs;
  }

  /** The call with the arguments already read, all of them trees, and those still to come. */
  lemma {:induction false} ArgsSound(p: Table, name: string, done: seq<Tree>, args: seq<Expr>, ts: seq<Token>)
    returns (t: Tree)
    requires |done| == |args| && forall i :: 0 <= i < |done| ==> WellBound(p, done[i]) && Ast(done[i]) == args[i]
    requires ParseArgs(p, args, ts).result.Some?
    ensures t.Call? && WellBound(p, t) && |done| < |t.args| && t.args[..|done|] == done
    ensures Ast(t) == CallExpr(name, ParseArgs(p, args, ts).result.value)
    ensures ts == YieldArgs(t, |done|) + [Char(')')] + ParseArgs(p, args, ts).rest
    decreases |ts|, 3
  {
    hide ParseExpression, Precedence, ParseArgs, Yield, Ast, WellBound, EndsInName;
    ArgsUnfold(p, args, ts);
    var arg := ParseExpression(p, ts);
    var first := ExpressionSound(p, ts);
    var more, moreArgs := done + [first], args + [arg.result.value];
    var r := ParseArgs(p, args, ts);
    if StartsWith(arg.rest, ')') {
      t := Call(name, more);
      CallOf(p, t, moreArgs);
      assert arg.rest == [Char(')')] + r.rest;
      assert ts == YieldArgs(t, |done|) + [Char(')')] + r.rest;
    } else {
      t := ArgsSound(p, name, more, moreArgs, arg.rest[1..]);
      assert t.args[|done|] == t.args[..|more|][|done|] == first;
      assert t.args[..|done|] == t.args[..|more|][..|done|] == done;
      assert arg.rest == [Char(',')] + arg.rest[1..];
      assert ts == YieldArgs(t, |done|) + [Char(')')] + r.rest;
    }
  }

  lemma CallOf(p: Table, t: Tree, args: seq<Expr>)
    requires t.Call? && |t.args| == |args|
    requires forall i :: 0 <= i < |args| ==> WellBound(p, t.args[i]) && Ast(t.args[i]) == args[i]
    ensures WellBound(p, t) && Ast(t) == CallExpr(t.callee, args)
  {
    assert Ast(t).args == args;
  }

  /** One turn of the argument loop, read backwards. */
  lemma ArgsUnfold(p: Table, args: seq<Expr>, ts: seq<Token>)
    requires ParseArgs(p, args, ts).result.Some?
    ensures ParseExpression(p, ts).result.Some?
    ensures var arg := ParseExpression(p, ts);
      var more := args + [arg.result.value];
      if StartsWith(arg.rest, ')') then ParseArgs(p, args, ts) == Parsed(Some(more), arg.rest[1..])
      else StartsWith(arg.rest, ',') && ParseArgs(p, args, ts) == ParseArgs(p, more, arg.rest[1..])
  {
    hide ParseExpression;
  }

  lemma {:induction false} ExpressionSound(p: Table, ts: seq<Token>) returns (t: Tree)
    requires ParseExpression(p, ts).result.Some?
    ensures Derives(p, t, ParseExpression(p, ts).result.value, ts, ParseExpression(p, ts).rest)
    ensures TokPrec(p, ParseExpression(p, ts).rest) < 0
    decreases |ts|, 2
  {
    hide ParsePrimary, ParseBinOpRhs, Precedence;
    var lhs := ParsePrimary(p, ts);
    var first := PrimarySound(p, ts);
    t := RhsSound(p, 0, first, lhs.rest);
  }

  lemma InfixOf(op: char, l: Tree, r: Tree, rest: seq<Token>)
    ensures Yield(Infix(op, l, r)) + rest == Yield(l) + ([Char(op)] + (Yield(r) + rest))
    ensures Ast(Infix(op, l, r)) == BinaryExpr(op, Ast(l), Ast(r))
  {}

  /** The operator loop, having read the tree l. */
  lemma {:induction false} RhsSound(p: Table, min: nat, l: Tree, ts: seq<Token>) returns (t: Tree)
    requires WellBound(p, l) && (EndsInName(l) ==> !StartsWith(ts, '('))
    requires l.Infix? ==> TokPrec(p, ts) <= Precedence(p, l.op)
    requires ParseBinOpRhs(p, min, Ast(l), ts).result.Some?
    ensures Derives(p, t, ParseBinOpRhs(p, min, Ast(l), ts).result.value, Yield(l) + ts,
      ParseBinOpRhs(p, min, Ast(l), ts).rest)
    ensures TokPrec(p, ParseBinOpRhs(p, min, Ast(l), ts).rest) < min
    ensures t == l || (t.Infix? && Precedence(p, t.op) >= min)
    decreases |ts|, 0
  {
    hide ParseOperand, Precedence, Yield, Ast;
    var prec := TokPrec(p, ts);
    if prec < min {
      t := l;
    } else {
      var rhs := ParseOperand(p, prec, ts[1..]);
      var r := OperandSound(p, prec, ts[1..]);
      var more := Infix(ts[0].c, l, r);
      assert ts == [Char(ts[0].c)] + ts[1..];
      InfixOf(ts[0].c, l, r, rhs.rest);
      t := RhsSound(p, min, more, rhs.rest);
    }
  }

  lemma {:induction false} OperandSound(p: Table, prec: nat, ts: seq<Token>) returns (t: Tree)
    requires ParseOperand(p, prec, ts).result.Some?
    ensures Derives(p, t, ParseOperand(p, prec, ts).result.value, ts, ParseOperand(p, prec, ts).rest)
    ensures TokPrec(p, ParseOperand(p, prec, ts).rest) <= prec && (t.Infix? ==> prec < Precedence(p, t.op))
    decreases |ts|, 2
  {
    hide ParsePrimary, ParseBinOpRhs, Precedence;
    var rhs := ParsePrimary(p, ts);
    t := PrimarySound(p, ts);
    if prec < TokPrec(p, rhs.rest) { t := RhsSound(p, prec + 1, t, rhs.rest); }
  }

  // ----- The parser and the grammar agree -----

  /** An expression is parsed, up to some rest, exactly if the grammar derives what is before the rest, and the rest
      does not go on with it. */
  lemma ParsesExactlyTheGrammar(p: Table, ts: seq<Token>, e: Expr, rest: seq<Token>)
    requires PunctuationFree(p)
    ensures ParseExpression(p, ts) == Parsed(Some(e), rest)
        <==> exists t :: WellBound(p, t) && Ast(t) == e && ts == Yield(t) + rest && Stops(p, t, rest)
  {
    hide ParseExpression, PunctuationFree;
    if ParseExpression(p, ts) == Parsed(Some(e), rest) { var t := ExpressionSound(p, ts); }
    if t :| WellBound(p, t) && Ast(t) == e && ts == Yield(t) + rest && Stops(p, t, rest) {
      ExpressionIsParsed(p, t, rest);
    }
  }

  /** A sentence has one meaning. */
  lemma Unambiguous(p: Table, t: Tree, u: Tree)
    requires PunctuationFree(p) && WellBound(p, t) && WellBound(p, u) && Yield(t) == Yield(u)
    ensures Ast(t) == Ast(u)
  {
    hide ParseExpression, PunctuationFree;
    ExpressionIsParsed(p, t, []);
    ExpressionIsParsed(p, u, []);
    assert Yield(t) + [] == Yield(t);
  }

  // ----- Printing -----

  /** All operators of e are in the table. */
  predicate OperatorsKnown(p: Table, e: Expr) {
    match e
    case BinaryExpr(op, lhs, rhs) => Precedence(p, op) > 0 && OperatorsKnown(p, lhs) && OperatorsKnown(p, rhs)
    case CallExpr(_, args) => forall i :: 0 <= i < |args| ==> OperatorsKnown(p, args[i])
    case _ => true
  }

  function Wrap(needed: bool, t: Tree): Tree {
    if needed then Paren(t) else t
  }

  /** The tree of e with parentheses only where precedence asks for them. */
  function MinTree(p: Table, e: Expr): (t: Tree)
    ensures t.Infix? <==> e.BinaryExpr?
    ensures e.BinaryExpr? ==> t.op == e.op
  {
    match e
    case NumberExpr(lexeme) => Literal(lexeme)
    case VariableExpr(name) => Name(name)
    case CallExpr(callee, args) => Call(callee, seq(|args|, i requires 0 <= i < |args| => MinTree(p, args[i])))
    case BinaryExpr(op, lhs, rhs) =>
      var l := Wrap(lhs.BinaryExpr? && Precedence(p, lhs.op) < Precedence(p, op), MinTree(p, lhs));
      var r := Wrap(rhs.BinaryExpr? && Precedence(p, rhs.op) <= Precedence(p, op), MinTree(p, rhs));
      Infix(op, l, r)
  }

  function Print(p: Table, e: Expr): seq<Token> {
    Yield(MinTree(p, e))
  }

  lemma {:induction false} MinTreeOk(p: Table, e: Expr)
    ensures Ast(MinTree(p, e)) == e
    ensures OperatorsKnown(p, e) ==> WellBound(p, MinTree(p, e))
  {
    match e
    case BinaryExpr(op, lhs, rhs) =>
      MinTreeOk(p, lhs);
      MinTreeOk(p, rhs);
    case CallExpr(callee, args) =>
      forall i | 0 <= i < |args|
        ensures Ast(MinTree(p, args[i])) == args[i]
        ensures OperatorsKnown(p, args[i]) ==> WellBound(p, MinTree(p, args[i]))
      {
        MinTreeOk(p, args[i]);
      }
      assert Ast(MinTree(p, e)).args == args;
    case _ =>
  }

  /** The round trip: an expression printed with the fewest parentheses is parsed back, and what follows it is left. */
  lemma RoundTrip(p: Table, e: Expr, rest: seq<Token>)
    requires PunctuationFree(p) && OperatorsKnown(p, e) && TokPrec(p, rest) < 0 && !StartsWith(rest, '(')
    ensures ParseExpression(p, Print(p, e) + rest) == Parsed(Some(e), rest)
  {
    hide ParseExpression, PunctuationFree, WellBound;
    MinTreeOk(p, e);
    ExpressionIsParsed(p, MinTree(p, e), rest);
  }

  /** Tables with punctuation among their operators lose the round trip, and no others do. */
  lemma RoundTripIffPunctuationFree(p: Table)
    ensures PunctuationFree(p)
        <==> forall e :: OperatorsKnown(p, e) ==> ParseExpression(p, Print(p, e)) == Parsed(Some(e), [])
  {
    if PunctuationFree(p) {
      forall e | OperatorsKnown(p, e) ensures ParseExpression(p, Print(p, e)) == Parsed(Some(e), []) {
        RoundTrip(p, e, []);
        assert Print(p, e) + [] == Print(p, e);
      }
    } else {
      var e := LostByPunctuation(p);
    }
  }

  lemma LostByPunctuation(p: Table) returns (e: Expr)
    requires !PunctuationFree(p)
    ensures OperatorsKnown(p, e) && ParseExpression(p, Print(p, e)) != Parsed(Some(e), [])
  {
    var x, n := VariableExpr("x"), NumberExpr("1");
    if Precedence(p, '(') > 0 {
      e := BinaryExpr('(', x, n);
      OpenIsCall(p);
    } else if Precedence(p, ')') > 0 {
      e := CallExpr("x", [n]);
      CloseIsEaten(p);
    } else {
      e := CallExpr("x", [n, n]);
      CommaIsEaten(p);
    }
  }

  lemma OpenIsCall(p: Table)
    requires Precedence(p, '(') > 0
    ensures ParseExpression(p, Print(p, BinaryExpr('(', VariableExpr("x"), NumberExpr("1")))).result == None
  {
    var ts := [Identifier("x"), Char('('), Number("1")];
    var e := BinaryExpr('(', VariableExpr("x"), NumberExpr("1"));
    assert MinTree(p, e) == Infix('(', Name("x"), Literal("1"));
    assert Print(p, e) == ts;
    assert ts[1..][1..] == [Number("1")];
    assert ParsePrimary(p, [Number("1")]) == Parsed(Some(NumberExpr("1")), []);
    assert ParseExpression(p, [Number("1")]) == Parsed(Some(NumberExpr("1")), []);
  }

  lemma CloseIsEaten(p: Table)
    requires Precedence(p, ')') > 0
    ensures ParseExpression(p, Print(p, CallExpr("x", [NumberExpr("1")]))).result == None
  {
    var e := CallExpr("x", [NumberExpr("1")]);
    var t := MinTree(p, e);
    assert t.args[0] == MinTree(p, e.args[0]) == Literal("1");
    var ts := [Identifier("x"), Char('('), Number("1"), Char(')')];
    assert YieldArgs(t, 0) == [Number("1")];
    assert Print(p, e) == ts;
    var inner := [Number("1"), Char(')')];
    assert ts[1..][1..] == inner && inner[1..] == [Char(')')] && inner[1..][1..] == [];
    assert ParsePrimary(p, inner) == Parsed(Some(NumberExpr("1")), [Char(')')]);
    assert ParseOperand(p, Precedence(p, ')'), []).result == None;
    assert ParseExpression(p, inner).result == None;
  }

  lemma CommaIsEaten(p: Table)
    requires Precedence(p, ',') > 0 && Precedence(p, ')') < 0
    ensures ParseExpression(p, Print(p, CallExpr("x", [NumberExpr("1"), NumberExpr("1")])))
         != Parsed(Some(CallExpr("x", [NumberExpr("1"), NumberExpr("1")])), [])
  {
    var one := NumberExpr("1");
    var e := CallExpr("x", [one, one]);
    var t := MinTree(p, e);
    assert t.args[0] == MinTree(p, e.args[0]) == Literal("1") == MinTree(p, e.args[1]) == t.args[1];
    var inner := [Number("1"), Char(','), Number("1"), Char(')')];
    var ts := [Identifier("x"), Char('(')] + inner;
    assert YieldArgs(t, 0) == [Number("1"), Char(','), Number("1")] by { assert YieldArgs(t, 1) == [Number("1")]; }
    assert Print(p, e) == ts;
    var wide := Infix(',', Literal("1"), Literal("1"));
    assert Yield(wide) + [Char(')')] == inner;
    CommaOperand(p, inner);
    assert ts[1..][1..] == inner;
    OneArgument(p, [], inner, Ast(wide), [Char(')')]);
    assert [] + [Ast(wide)] == [Ast(wide)];
    assert ParseArgs(p, [], inner) == Parsed(Some([Ast(wide)]), []);
    assert ParsePrimary(p, ts) == Parsed(Some(CallExpr("x", [Ast(wide)])), []);
    assert ParseExpression(p, ts) == ParsePrimary(p, ts);
  }

  lemma CommaOperand(p: Table, ts: seq<Token>)
    requires Precedence(p, ',') > 0 && Precedence(p, ')') < 0
    requires ts == [Number("1"), Char(','), Number("1"), Char(')')]
    ensures ParseExpression(p, ts) == Parsed(Some(BinaryExpr(',', NumberExpr("1"), NumberExpr("1"))), [Char(')')])
  {
    var prec := Precedence(p, ',');
    var one := NumberExpr("1");
    assert ts[1..] == [Char(','), Number("1"), Char(')')] && ts[1..][1..] == [Number("1"), Char(')')];
    assert ts[2..][1..] == [Char(')')];
    assert ParsePrimary(p, ts) == Parsed(Some(one), ts[1..]);
    assert ParseOperand(p, prec, ts[2..]) == Parsed(Some(one), [Char(')')]);
    OneOperator(p, 0, one, one, ts[1..], [Char(')')]);
  }

  // ----- No printing is shorter -----

  /** No derivation of an expression is shorter than the printed one. */
  lemma {:induction false} FewestTokens(p: Table, t: Tree)
    requires WellBound(p, t)
    ensures |Print(p, Ast(t))| <= |Yield(t)|
    decreases t, 1, 0
  {
    match t
    case Paren(inner) => FewestTokens(p, inner);
    case Infix(op, lhs, rhs) =>
      FewestTokens(p, lhs);
      FewestTokens(p, rhs);
      if Ast(lhs).BinaryExpr? && !lhs.Infix? { WrappedOrParen(p, lhs); }
      if Ast(rhs).BinaryExpr? && !rhs.Infix? { WrappedOrParen(p, rhs); }
      var m := MinTree(p, Ast(t));
      assert |Yield(m.lhs)| <= |Yield(lhs)| && |Yield(m.rhs)| <= |Yield(rhs)|;
      assert |Yield(m)| == |Yield(m.lhs)| + 1 + |Yield(m.rhs)|;
    case Call(callee, args) => FewestArgTokens(p, t, 0);
    case _ =>
  }

  /** An operator expression that is not derived by its operator has parentheses around it. */
  lemma {:induction false} WrappedOrParen(p: Table, t: Tree)
    requires WellBound(p, t) && Ast(t).BinaryExpr? && !t.Infix?
    ensures |Print(p, Ast(t))| + 2 <= |Yield(t)|
    decreases t, 0, 0
  {
    if t.Paren? { FewestTokens(p, t.inner); }
  }

  lemma {:induction false} FewestArgTokens(p: Table, t: Tree, i: nat)
    requires WellBound(p, t) && t.Call? && i <= |t.args|
    ensures |YieldArgs(MinTree(p, Ast(t)), i)| <= |YieldArgs(t, i)|
    decreases t, 0, |t.args| - i
  {
    if i < |t.args| {
      FewestTokens(p, t.args[i]);
      FewestArgTokens(p, t, i + 1);
    }
  }
}
