/** The parser looks one token ahead and no further: what it has read and the token after that decide its answer. */
module ParserLookahead {
  import opened Wrappers
  import opened Parsing

  /** The list ts ends in the tokens y. */
  predicate EndsIn(ts: seq<Token>, y: seq<Token>) {
    |y| <= |ts| && ts[|ts| - |y|..] == y
  }

  /** The list ts with its end y replaced by z. */
  function Swap(ts: seq<Token>, y: seq<Token>, z: seq<Token>): seq<Token>
    requires EndsIn(ts, y)
  {
    ts[..|ts| - |y|] + z
  }

  /** Two endings with the same first token. */
  predicate SameStart(y: seq<Token>, z: seq<Token>) {
    y != [] && z != [] && y[0] == z[0]
  }

  /** An answer with the replacement of the ending carried over to the tokens left. */
  function SwapRest<T>(r: Parsed<T>, y: seq<Token>, z: seq<Token>): Parsed<T>
    requires EndsIn(r.rest, y)
  {
    Parsed(r.result, Swap(r.rest, y, z))
  }

  /** A token that is read is not in the ending, and the current token stays. */
  lemma SwapStep(ts: seq<Token>, y: seq<Token>, z: seq<Token>)
    requires EndsIn(ts, y) && SameStart(y, z)
    ensures ts != [] && Swap(ts, y, z) != [] && Swap(ts, y, z)[0] == ts[0]
    ensures |y| < |ts| ==> EndsIn(ts[1..], y) && Swap(ts, y, z)[1..] == Swap(ts[1..], y, z)
  {
    if |y| == |ts| { assert ts == y; }
  }

  lemma {:induction false} PrimaryLooksAhead(p: Table, ts: seq<Token>, y: seq<Token>, z: seq<Token>)
    requires EndsIn(ts, y) && SameStart(y, z) && |ParsePrimary(p, ts).rest| >= |y|
    ensures EndsIn(ParsePrimary(p, ts).rest, y)
    ensures ParsePrimary(p, Swap(ts, y, z)) == SwapRest(ParsePrimary(p, ts), y, z)
    decreases |ts|, 1
  {
    hide Swap, EndsIn, SameStart, ParseParen, ParseIdentifier;
    SwapStep(ts, y, z);
    match ts[0]
    case Identifier(name) => IdentifierLooksAhead(p, name, ts[1..], y, z);
    case Char(c) => if c == '(' { ParenLooksAhead(p, ts[1..], y, z); }
    case _ =>
  }

  lemma {:induction false} ParenLooksAhead(p: Table, ts: seq<Token>, y: seq<Token>, z: seq<Token>)
    requires EndsIn(ts, y) && SameStart(y, z) && |ParseParen(p, ts).rest| >= |y|
    ensures EndsIn(ParseParen(p, ts).rest, y)
    ensures ParseParen(p, Swap(ts, y, z)) == SwapRest(ParseParen(p, ts), y, z)
    decreases |ts|, 3
  {
    hide Swap, EndsIn, SameStart, ParseExpression;
    ExpressionLooksAhead(p, ts, y, z);
    SwapStep(ParseExpression(p, ts).rest, y, z);
  }

  lemma {:induction false} IdentifierLooksAhead(p: Table, name: string, ts: seq<Token>, y: seq<Token>, z: seq<Token>)
    requires EndsIn(ts, y) && SameStart(y, z) && |ParseIdentifier(p, name, ts).rest| >= |y|
    ensures EndsIn(ParseIdentifier(p, name, ts).rest, y)
    ensures ParseIdentifier(p, name, Swap(ts, y, z)) == SwapRest(ParseIdentifier(p, name, ts), y, z)
    decreases |ts|, 3
  {
    hide Swap, EndsIn, SameStart, ParseArgs;
    SwapStep(ts, y, z);
    if StartsWith(ts, '(') {
      SwapStep(ts[1..], y, z);
      if StartsWith(ts[1..], ')') {
        assert ts[1..][1..] == ts[2..] && Swap(ts, y, z)[1..][1..] == Swap(ts, y, z)[2..];
      } else {
        ArgsLookAhead(p, [], ts[1..], y, z);
      }
    }
  }

  lemma {:induction false} ArgsLookAhead(p: Table, done: seq<Expr>, ts: seq<Token>, y: seq<Token>, z: seq<Token>)
    requires EndsIn(ts, y) && SameStart(y, z) && |ParseArgs(p, done, ts).rest| >= |y|
    ensures EndsIn(ParseArgs(p, done, ts).rest, y)
    ensures ParseArgs(p, done, Swap(ts, y, z)) == SwapRest(ParseArgs(p, done, ts), y, z)
    decreases |ts|, 3
  {
    hide Swap, EndsIn, SameStart, ParseExpression;
    var arg := ParseExpression(p, ts);
    ExpressionLooksAhead(p, ts, y, z);
    SwapStep(arg.rest, y, z);
    if arg.result.Some? && StartsWith(arg.rest, ',') {
      ArgsLookAhead(p, done + [arg.result.value], arg.rest[1..], y, z);
    }
  }

  lemma {:induction false} RhsLooksAhead(p: Table, min: nat, lhs: Expr, ts: seq<Token>, y: seq<Token>, z: seq<Token>)
    requires EndsIn(ts, y) && SameStart(y, z) && |ParseBinOpRhs(p, min, lhs, ts).rest| >= |y|
    ensures EndsIn(ParseBinOpRhs(p, min, lhs, ts).rest, y)
    ensures ParseBinOpRhs(p, min, lhs, Swap(ts, y, z)) == SwapRest(ParseBinOpRhs(p, min, lhs, ts), y, z)
    decreases |ts|, 0
  {
    hide Swap, EndsIn, SameStart, ParseOperand, Precedence;
    SwapStep(ts, y, z);
    var prec := TokPrec(p, ts);
    assert TokPrec(p, Swap(ts, y, z)) == prec;
    if prec >= min {
      var rhs := ParseOperand(p, prec, ts[1..]);
      OperandLooksAhead(p, prec, ts[1..], y, z);
      if rhs.result.Some? {
        RhsLooksAhead(p, min, BinaryExpr(ts[0].c, lhs, rhs.result.value), rhs.rest, y, z);
      }
    }
  }

  lemma {:induction false} OperandLooksAhead(p: Table, prec: nat, ts: seq<Token>, y: seq<Token>, z: seq<Token>)
    requires EndsIn(ts, y) && SameStart(y, z) && |ParseOperand(p, prec, ts).rest| >= |y|
    ensures EndsIn(ParseOperand(p, prec, ts).rest, y)
    ensures ParseOperand(p, prec, Swap(ts, y, z)) == SwapRest(ParseOperand(p, prec, ts), y, z)
    decreases |ts|, 2
  {
    hide Swap, EndsIn, SameStart, ParsePrimary, ParseBinOpRhs, Precedence;
    var rhs := ParsePrimary(p, ts);
    PrimaryLooksAhead(p, ts, y, z);
    SwapStep(rhs.rest, y, z);
    assert TokPrec(p, Swap(rhs.rest, y, z)) == TokPrec(p, rhs.rest);
    if rhs.result.Some? && prec < TokPrec(p, rhs.rest) {
      RhsLooksAhead(p, prec + 1, rhs.result.value, rhs.rest, y, z);
    }
  }

  lemma {:induction false} ExpressionLooksAhead(p: Table, ts: seq<Token>, y: seq<Token>, z: seq<Token>)
    requires EndsIn(ts, y) && SameStart(y, z) && |ParseExpression(p, ts).rest| >= |y|
    ensures EndsIn(ParseExpression(p, ts).rest, y)
    ensures ParseExpression(p, Swap(ts, y, z)) == SwapRest(ParseExpression(p, ts), y, z)
    decreases |ts|, 2
  {
    hide Swap, EndsIn, SameStart, ParsePrimary, ParseBinOpRhs;
    var lhs := ParsePrimary(p, ts);
    PrimaryLooksAhead(p, ts, y, z);
    if lhs.result.Some? { RhsLooksAhead(p, 0, lhs.result.value, lhs.rest, y, z); }
  }

  lemma {:induction false} NamesLookAhead(ts: seq<Token>, y: seq<Token>, z: seq<Token>)
    requires EndsIn(ts, y) && SameStart(y, z) && |Names(ts).1| >= |y|
    ensures EndsIn(Names(ts).1, y) && Names(Swap(ts, y, z)) == (Names(ts).0, Swap(Names(ts).1, y, z))
  {
    hide Swap, EndsIn, SameStart;
    SwapStep(ts, y, z);
    if ts[0].Identifier? { NamesLookAhead(ts[1..], y, z); }
  }

  lemma PrototypeLooksAhead(ts: seq<Token>, y: seq<Token>, z: seq<Token>)
    requires EndsIn(ts, y) && SameStart(y, z) && |ParsePrototype(ts).rest| >= |y|
    ensures EndsIn(ParsePrototype(ts).rest, y)
    ensures ParsePrototype(Swap(ts, y, z)) == SwapRest(ParsePrototype(ts), y, z)
  {
    hide Swap, EndsIn, SameStart, Names;
    SwapStep(ts, y, z);
    if ts[0].Identifier? {
      SwapStep(ts[1..], y, z);
      if StartsWith(ts[1..], '(') {
        assert ts[1..][1..] == ts[2..] && Swap(ts, y, z)[1..][1..] == Swap(ts, y, z)[2..];
        NamesLookAhead(ts[2..], y, z);
        SwapStep(Names(ts[2..]).1, y, z);
      }
    }
  }

  lemma ItemLooksAhead(p: Table, ts: seq<Token>, y: seq<Token>, z: seq<Token>)
    requires EndsIn(ts, y) && SameStart(y, z) && |TryItem(p, ts).rest| >= |y|
    ensures EndsIn(TryItem(p, ts).rest, y) && TryItem(p, Swap(ts, y, z)) == SwapRest(TryItem(p, ts), y, z)
  {
    hide Swap, EndsIn, SameStart, ParseExpression, ParsePrototype;
    SwapStep(ts, y, z);
    if ts[0] == Def {
      var proto := ParsePrototype(ts[1..]);
      PrototypeLooksAhead(ts[1..], y, z);
      if proto.result.Some? { ExpressionLooksAhead(p, proto.rest, y, z); }
    } else if ts[0] == Extern {
      PrototypeLooksAhead(ts[1..], y, z);
    } else {
      ExpressionLooksAhead(p, ts, y, z);
    }
  }

  /** What has been read and the next token decide the answer, whatever comes after. */
  lemma OneTokenAhead(p: Table, read: seq<Token>, x: Token, more: seq<Token>, others: seq<Token>)
    requires TryItem(p, read + ([x] + more)).rest == [x] + more
    ensures TryItem(p, read + ([x] + others)) == Parsed(TryItem(p, read + ([x] + more)).result, [x] + others)
  {
    hide TryItem;
    var y, z := [x] + more, [x] + others;
    ItemLooksAhead(p, read + y, y, z);
    assert Swap(read + y, y, z) == read + z;
  }
}
