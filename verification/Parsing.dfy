/** What the recursive-descent parser of kaleidoscope/ast computes from a list of tokens; the end of the list
    is the end of the file. */
module Parsing {
  import opened Wrappers

  datatype Token = Def | Extern | Identifier(name: string) | Number(lexeme: string) | Char(c: char)

  /** Numbers keep the text they were written with. */
  datatype Expr =
    | NumberExpr(lexeme: string)
    | VariableExpr(name: string)
    | BinaryExpr(op: char, lhs: Expr, rhs: Expr)
    | CallExpr(callee: string, args: seq<Expr>)

  datatype Prototype = Prototype(name: string, args: seq<string>)

  /** What the top-level loop reports for each item. */
  datatype Item =
    | Definition(proto: Prototype, body: Expr)
    | External(proto: Prototype)
    | TopLevel(body: Expr)
    | Failure

  type Table = map<char, int>

  /** The precedence of a character, or -1 if the table does not make it an operator. */
  function Precedence(p: Table, c: char): (prec: int)
    ensures prec == -1 || prec > 0
  {
    if c < 128 as char && c in p && p[c] > 0 then p[c] else -1
  }

  /** The precedence of the pending token. */
  function TokPrec(p: Table, ts: seq<Token>): (prec: int)
    ensures prec == -1 || (prec > 0 && ts != [] && ts[0].Char?)
  {
    if ts != [] && ts[0].Char? then Precedence(p, ts[0].c) else -1
  }

  predicate StartsWith(ts: seq<Token>, c: char) {
    ts != [] && ts[0] == Char(c)
  }

  /** Dropping the current token; at the end of the file there is always another end of the file. */
  function Next(ts: seq<Token>): seq<Token> {
    if ts == [] then [] else ts[1..]
  }

  /** A result, or none after an error, and the tokens not consumed. */
  datatype Parsed<T> = Parsed(result: Option<T>, rest: seq<Token>)

  function ParsePrimary(p: Table, ts: seq<Token>): (r: Parsed<Expr>)
    ensures |r.rest| <= |ts| && (r.result.Some? ==> |r.rest| < |ts|)
    decreases |ts|, 1
  {
    if ts == [] then Parsed(None, ts)
    else match ts[0]
      case Identifier(name) => ParseIdentifier(p, name, ts[1..])
      case Number(lexeme) => Parsed(Some(NumberExpr(lexeme)), ts[1..])
      case Char(c) => if c == '(' then ParseParen(p, ts[1..]) else Parsed(None, ts)
      case _ => Parsed(None, ts)
  }

  /** After the opening parenthesis. */
  function ParseParen(p: Table, ts: seq<Token>): (r: Parsed<Expr>)
    ensures |r.rest| <= |ts|
    decreases |ts|, 3
  {
    var v := ParseExpression(p, ts);
    if v.result.None? then v
    else if StartsWith(v.rest, ')') then Parsed(v.result, v.rest[1..])
    else Parsed(None, v.rest)
  }

  /** After the identifier. */
  function ParseIdentifier(p: Table, name: string, ts: seq<Token>): (r: Parsed<Expr>)
    ensures |r.rest| <= |ts|
    decreases |ts|, 3
  {
    if !StartsWith(ts, '(') then Parsed(Some(VariableExpr(name)), ts)
    else if StartsWith(ts[1..], ')') then Parsed(Some(CallExpr(name, [])), ts[2..])
    else
      var args := ParseArgs(p, [], ts[1..]);
      if args.result.None? then Parsed(None, args.rest)
      else Parsed(Some(CallExpr(name, args.result.value)), args.rest)
  }

  /** Arguments after those in done, with their closing parenthesis. */
  function ParseArgs(p: Table, done: seq<Expr>, ts: seq<Token>): (r: Parsed<seq<Expr>>)
    ensures |r.rest| <= |ts|
    decreases |ts|, 3
  {
    var arg := ParseExpression(p, ts);
    if arg.result.None? then Parsed(None, arg.rest)
    else
      var more := done + [arg.result.value];
      if StartsWith(arg.rest, ')') then Parsed(Some(more), arg.rest[1..])
      else if StartsWith(arg.rest, ',') then ParseArgs(p, more, arg.rest[1..])
      else Parsed(None, arg.rest)
  }

  /** Operators that bind at least as tightly as min, and their right operands. */
  function ParseBinOpRhs(p: Table, min: nat, lhs: Expr, ts: seq<Token>): (r: Parsed<Expr>)
    ensures |r.rest| <= |ts|
    decreases |ts|, 0
  {
    var prec := TokPrec(p, ts);
    if prec < min then Parsed(Some(lhs), ts)
    else
      var rhs := ParseOperand(p, prec, ts[1..]);
      if rhs.result.None? then rhs
      else ParseBinOpRhs(p, min, BinaryExpr(ts[0].c, lhs, rhs.result.value), rhs.rest)
  }

  /** The right operand of an operator of precedence prec, with all that binds more tightly. */
  function ParseOperand(p: Table, prec: nat, ts: seq<Token>): (r: Parsed<Expr>)
    ensures |r.rest| <= |ts|
    decreases |ts|, 2
  {
    var rhs := ParsePrimary(p, ts);
    if rhs.result.Some? && prec < TokPrec(p, rhs.rest) then ParseBinOpRhs(p, prec + 1, rhs.result.value, rhs.rest)
    else rhs
  }

  function ParseExpression(p: Table, ts: seq<Token>): (r: Parsed<Expr>)
    ensures |r.rest| <= |ts| && (r.result.Some? ==> |r.rest| < |ts|)
    decreases |ts|, 2
  {
    var lhs := ParsePrimary(p, ts);
    if lhs.result.None? then lhs else ParseBinOpRhs(p, 0, lhs.result.value, lhs.rest)
  }

  /** The names before the first token that is not one. */
  function Names(ts: seq<Token>): (r: (seq<string>, seq<Token>))
    ensures |r.1| <= |ts|
  {
    if ts != [] && ts[0].Identifier? then
      var more := Names(ts[1..]);
      ([ts[0].name] + more.0, more.1)
    else
      ([], ts)
  }

  function ParsePrototype(ts: seq<Token>): (r: Parsed<Prototype>)
    ensures |r.rest| <= |ts|
  {
    if ts == [] || !ts[0].Identifier? then Parsed(None, ts)
    else if !StartsWith(ts[1..], '(') then Parsed(None, ts[1..])
    else
      var names := Names(ts[2..]);
      if StartsWith(names.1, ')') then Parsed(Some(Prototype(ts[0].name, names.0)), names.1[1..])
      else Parsed(None, names.1)
  }

  /** After def. */
  function ParseDefinition(p: Table, ts: seq<Token>): (r: Parsed<Item>)
    ensures |r.rest| <= |ts|
  {
    var proto := ParsePrototype(ts);
    if proto.result.None? then Parsed(None, proto.rest)
    else
      var body := ParseExpression(p, proto.rest);
      if body.result.None? then Parsed(None, body.rest)
      else Parsed(Some(Definition(proto.result.value, body.result.value)), body.rest)
  }

  /** After extern. */
  function ParseExtern(ts: seq<Token>): (r: Parsed<Item>)
    ensures |r.rest| <= |ts|
  {
    var proto := ParsePrototype(ts);
    if proto.result.None? then Parsed(None, proto.rest) else Parsed(Some(External(proto.result.value)), proto.rest)
  }

  function ParseTopLevelExpr(p: Table, ts: seq<Token>): (r: Parsed<Item>)
    ensures |r.rest| <= |ts| && (r.result.Some? ==> |r.rest| < |ts|)
  {
    var body := ParseExpression(p, ts);
    if body.result.None? then Parsed(None, body.rest) else Parsed(Some(TopLevel(body.result.value)), body.rest)
  }

  /** An item, if there is one. */
  function TryItem(p: Table, ts: seq<Token>): (r: Parsed<Item>)
    ensures |r.rest| <= |ts| && (r.result.Some? ==> |r.rest| < |ts|)
    ensures r.result != Some(Failure)
  {
    if ts != [] && ts[0] == Def then ParseDefinition(p, ts[1..])
    else if ts != [] && ts[0] == Extern then ParseExtern(ts[1..])
    else ParseTopLevelExpr(p, ts)
  }

  /** One item from a list that starts with neither the end nor a semicolon; after an error a token is skipped. */
  function ParseItem(p: Table, ts: seq<Token>): (r: (Item, seq<Token>))
    requires ts != []
    ensures |r.1| < |ts|
  {
    var item := TryItem(p, ts);
    if item.result.None? then (Failure, Next(item.rest)) else (item.result.value, item.rest)
  }

  /** The whole file. */
  function ParseFile(p: Table, ts: seq<Token>): (items: seq<Item>)
    ensures |items| <= |ts|
    decreases |ts|
  {
    if ts == [] then []
    else if ts[0] == Char(';') then ParseFile(p, ts[1..])
    else
      var item := ParseItem(p, ts);
      [item.0] + ParseFile(p, item.1)
  }
}
