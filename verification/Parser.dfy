/** The lexer and the parser of kaleidoscope/ast with the variables they update, proved to compute Lex and the
    functions of Parsing. */
module Parsers {
  import opened Wrappers
  import opened Parsing
  import opened Lexing
  import Grammar
  import ParserFiles

  class Parser {
    const declared: Table
    var precedence: Table
    var input: string
    var lastChar: Option<char>
    var curTok: Option<Token>

    /** The characters not yet used, the one read ahead included. */
    ghost function Stream(): string
      reads this
    {
      if lastChar.None? then [] else [lastChar.value] + input
    }

    /** The tokens still to come, the current one included. */
    ghost function Tokens(): seq<Token>
      reads this
    {
      if curTok.None? then [] else [curTok.value] + LexAll(Stream())
    }

    /** Nothing comes after the end of the input; looking operators up has not changed what they are. */
    ghost predicate Valid()
      reads this
    {
      && (lastChar.None? ==> input == [])
      && (curTok.None? ==> Stream() == [])
      && forall c :: Precedence(precedence, c) == Precedence(declared, c)
    }

    constructor (table: Table, text: string)
      ensures Valid() && declared == table && Tokens() == LexAll(text)
    {
      declared, precedence := table, table;
      input, lastChar, curTok := text, Some(' '), None;
      new;
      assert Stream()[1..] == text;
      curTok := GetTok();
    }

    method GetChar()
      modifies this`input, this`lastChar
      ensures lastChar.None? ==> input == []
      ensures old(input) == [] ==> Stream() == []
      ensures old(input) != [] ==> Stream() == old(input)
    {
      if input == [] {
        lastChar := None;
      } else {
        lastChar, input := Some(input[0]), input[1..];
      }
    }

    method GetTok() returns (t: Option<Token>)
      requires lastChar.None? ==> input == []
      modifies this`input, this`lastChar
      decreases |Stream()|
      ensures lastChar.None? ==> input == []
      ensures (t, Stream()) == Lex(old(Stream()))
    {
      while lastChar.Some? && IsSpace(lastChar.value)
        invariant lastChar.None? ==> input == []
        invariant Lex(Stream()) == Lex(old(Stream())) && |Stream()| <= old(|Stream()|)
        decreases |Stream()|
      {
        assert Stream()[1..] == input;
        GetChar();
      }
      ghost var start := Stream();
      if lastChar.Some? && IsAlpha(lastChar.value) {
        var word := ReadAlnum();
        RunThen(IsAlnum, word, Stream());
        return Some(Word(word));
      }
      if lastChar.Some? && IsNumeric(lastChar.value) {
        var lexeme := ReadNumeric();
        RunThen(IsNumeric, lexeme, Stream());
        return Some(Number(lexeme));
      }
      if lastChar == Some('#') {
        assert start[1..] == input;
        SkipLine();
        if lastChar.Some? {
          t := GetTok();
          return;
        }
      }
      if lastChar.None? { return None; }
      t := Some(Char(lastChar.value));
      assert start[1..] == input;
      GetChar();
    }

    method ReadAlnum() returns (word: string)
      requires lastChar.Some? && IsAlpha(lastChar.value)
      modifies this`input, this`lastChar
      ensures lastChar.None? ==> input == []
      ensures word != [] && All(IsAlnum, word) && old(Stream()) == word + Stream()
      ensures Stream() != [] ==> !IsAlnum(Stream()[0])
    {
      hide Lex, LexAll, Run;
      word := [lastChar.value];
      GetChar();
      while lastChar.Some? && IsAlnum(lastChar.value)
        invariant lastChar.None? ==> input == []
        invariant word != [] && All(IsAlnum, word) && old(Stream()) == word + Stream()
        decreases |Stream()|
      {
        assert word + Stream() == (word + [lastChar.value]) + input;
        word := word + [lastChar.value];
        GetChar();
      }
    }

    method ReadNumeric() returns (lexeme: string)
      requires lastChar.Some? && IsNumeric(lastChar.value)
      modifies this`input, this`lastChar
      ensures lastChar.None? ==> input == []
      ensures lexeme != [] && All(IsNumeric, lexeme) && old(Stream()) == lexeme + Stream()
      ensures Stream() != [] ==> !IsNumeric(Stream()[0])
    {
      hide Lex, LexAll, Run;
      lexeme := [lastChar.value];
      GetChar();
      while lastChar.Some? && IsNumeric(lastChar.value)
        invariant lastChar.None? ==> input == []
        invariant lexeme != [] && All(IsNumeric, lexeme) && old(Stream()) == lexeme + Stream()
        decreases |Stream()|
      {
        assert lexeme + Stream() == (lexeme + [lastChar.value]) + input;
        lexeme := lexeme + [lastChar.value];
        GetChar();
      }
    }

    /** To the end of the line, which is left. */
    method SkipLine()
      requires lastChar.Some?
      modifies this`input, this`lastChar
      ensures lastChar.None? ==> input == []
      ensures Stream() == old(input)[Run(InLine, old(input))..]
    {
      hide Lex, LexAll, Run;
      ghost var skipped: string := [];
      GetChar();
      while lastChar.Some? && !EndsLine(lastChar.value)
        invariant lastChar.None? ==> input == []
        invariant All(InLine, skipped) && old(input) == skipped + Stream()
        decreases |Stream()|
      {
        assert skipped + Stream() == (skipped + [lastChar.value]) + input;
        skipped := skipped + [lastChar.value];
        GetChar();
      }
      RunThen(InLine, skipped, Stream());
    }

    method GetNextToken()
      requires Valid()
      modifies this`input, this`lastChar, this`curTok
      ensures Valid() && Tokens() == Next(old(Tokens()))
    {
      ghost var was := Stream();
      curTok := GetTok();
      assert LexAll(was) == if curTok.None? then [] else [curTok.value] + LexAll(Stream());
    }

    /** Looking up a character that has no entry gives it one, of precedence 0. */
    method GetTokPrecedence() returns (prec: int)
      requires Valid()
      modifies this`precedence
      ensures Valid() && prec == TokPrec(declared, Tokens())
    {
      if curTok.None? || !curTok.value.Char? || curTok.value.c >= 128 as char { return -1; }
      var c := curTok.value.c;
      if c !in precedence { precedence := precedence[c := 0]; }
      prec := if precedence[c] <= 0 then -1 else precedence[c];
      assert prec == Precedence(precedence, c);
    }

    method ParsePrimary() returns (e: Option<Expr>)
      requires Valid()
      modifies this
      decreases |Tokens()|, 1
      ensures Valid() && Parsed(e, Tokens()) == Parsing.ParsePrimary(declared, old(Tokens()))
    {
      if curTok.None? { return None; }
      match curTok.value
      case Identifier(name) =>
        e := ParseIdentifierExpr(name);
      case Number(lexeme) =>
        GetNextToken();
        e := Some(NumberExpr(lexeme));
      case Char(c) =>
        if c == '(' { e := ParseParenExpr(); } else { e := None; }
      case _ =>
        e := None;
    }

    method ParseParenExpr() returns (e: Option<Expr>)
      requires Valid() && StartsWith(Tokens(), '(')
      modifies this
      decreases |Tokens()|, 0
      ensures Valid() && Parsed(e, Tokens()) == ParseParen(declared, old(Tokens())[1..])
    {
      GetNextToken();
      e := ParseExpression();
      if e.None? { return; }
      if curTok != Some(Char(')')) { return None; }
      GetNextToken();
    }

    method ParseIdentifierExpr(name: string) returns (e: Option<Expr>)
      requires Valid() && curTok == Some(Identifier(name))
      modifies this
      decreases |Tokens()|, 0
      ensures Valid() && Parsed(e, Tokens()) == ParseIdentifier(declared, name, old(Tokens())[1..])
    {
      hide Lex, LexAll, Precedence, Parsing.ParsePrimary, ParseParen, ParseBinOpRhs, Parsing.ParseExpression;
      GetNextToken();
      ghost var ts := Tokens();
      if curTok != Some(Char('(')) { return Some(VariableExpr(name)); }
      GetNextToken();
      var args: seq<Expr> := [];
      if curTok != Some(Char(')')) {
        while true
          invariant Valid() && |Tokens()| < |ts|
          invariant ParseArgs(declared, args, Tokens()) == ParseArgs(declared, [], ts[1..])
          decreases |Tokens()|
        {
          var arg := ParseExpression();
          if arg.None? { return None; }
          args := args + [arg.value];
          if curTok == Some(Char(')')) { break; }
          if curTok != Some(Char(',')) { return None; }
          GetNextToken();
        }
      }
      GetNextToken();
      e := Some(CallExpr(name, args));
    }

    method ParseBinOpRHS(exprPrec: nat, first: Expr) returns (e: Option<Expr>)
      requires Valid()
      modifies this
      decreases |Tokens()|, 0
      ensures Valid() && Parsed(e, Tokens()) == ParseBinOpRhs(declared, exprPrec, first, old(Tokens()))
    {
      hide Lex, LexAll, Precedence, Parsing.ParsePrimary, ParseIdentifier, ParseParen, ParseArgs,
        Parsing.ParseExpression;
      var lhs := first;
      while true
        invariant Valid() && |Tokens()| <= old(|Tokens()|)
        invariant ParseBinOpRhs(declared, exprPrec, lhs, Tokens())
          == ParseBinOpRhs(declared, exprPrec, first, old(Tokens()))
        decreases |Tokens()|
      {
        var tokPrec := GetTokPrecedence();
        if tokPrec < exprPrec { return Some(lhs); }
        var binOp := curTok.value.c;
        GetNextToken();
        var rhs := ParsePrimary();
        if rhs.None? { return None; }
        var nextPrec := GetTokPrecedence();
        if tokPrec < nextPrec {
          rhs := ParseBinOpRHS(tokPrec + 1, rhs.value);
          if rhs.None? { return None; }
        }
        lhs := BinaryExpr(binOp, lhs, rhs.value);
      }
    }

    method ParseExpression() returns (e: Option<Expr>)
      requires Valid()
      modifies this
      decreases |Tokens()|, 2
      ensures Valid() && Parsed(e, Tokens()) == Parsing.ParseExpression(declared, old(Tokens()))
    {
      var lhs := ParsePrimary();
      if lhs.None? { return None; }
      e := ParseBinOpRHS(0, lhs.value);
    }

    /** The names up to the first token that is not one. */
    method ParseArgNames() returns (argNames: seq<string>)
      requires Valid()
      modifies this`input, this`lastChar, this`curTok
      ensures Valid() && (argNames, Tokens()) == Names(old(Tokens()))
    {
      hide Lex, LexAll, Precedence;
      argNames := [];
      ghost var ts := Tokens();
      while curTok.Some? && curTok.value.Identifier?
        invariant Valid()
        invariant Names(ts).0 == argNames + Names(Tokens()).0 && Names(ts).1 == Names(Tokens()).1
        decreases |Tokens()|
      {
        argNames := argNames + [curTok.value.name];
        GetNextToken();
      }
      assert argNames + [] == argNames;
    }

    method ParsePrototype() returns (proto: Option<Prototype>)
      requires Valid()
      modifies this
      ensures Valid() && Parsed(proto, Tokens()) == Parsing.ParsePrototype(old(Tokens()))
    {
      hide Lex, LexAll, Precedence;
      if curTok.None? || !curTok.value.Identifier? { return None; }
      var fnName := curTok.value.name;
      GetNextToken();
      if curTok != Some(Char('(')) { return None; }
      GetNextToken();
      var argNames := ParseArgNames();
      if curTok != Some(Char(')')) { return None; }
      GetNextToken();
      proto := Some(Prototype(fnName, argNames));
    }

    /** A definition, an external or an expression; after an error one more token is dropped. */
    method HandleItem() returns (item: Item)
      requires Valid() && Tokens() != []
      modifies this
      ensures Valid() && (item, Tokens()) == ParseItem(declared, old(Tokens()))
    {
      item := Failure;
      if curTok == Some(Def) {
        GetNextToken();
        var proto := ParsePrototype();
        if proto.Some? {
          var body := ParseExpression();
          if body.Some? { return Definition(proto.value, body.value); }
        }
      } else if curTok == Some(Extern) {
        GetNextToken();
        var proto := ParsePrototype();
        if proto.Some? { return External(proto.value); }
      } else {
        var body := ParseExpression();
        if body.Some? { return TopLevel(body.value); }
      }
      GetNextToken();
    }

    /** The loop ends, since every turn uses up at least one token. */
    method MainLoop() returns (items: seq<Item>)
      requires Valid()
      modifies this
      ensures Valid() && curTok.None? && items == ParseFile(declared, old(Tokens()))
    {
      hide Lex, LexAll, ParseItem, Precedence;
      items := [];
      while curTok.Some?
        invariant Valid()
        invariant items + ParseFile(declared, Tokens()) == ParseFile(declared, old(Tokens()))
        decreases |Tokens()|
      {
        if curTok == Some(Char(';')) {
          GetNextToken();
        } else {
          ghost var ts := Tokens();
          var item := HandleItem();
          assert ParseFile(declared, ts) == [item] + ParseFile(declared, Tokens());
          items := items + [item];
        }
      }
    }
  }

  /** The operators installed by main. */
  const STANDARD: Table := map['<' := 10, '+' := 20, '-' := 20, '*' := 40]

  /** Products bind more tightly than sums and differences, those more tightly than comparisons; nothing else is an
      operator, so that the theorems about tables without punctuation apply. */
  lemma StandardOperators()
    ensures 0 < Precedence(STANDARD, '<') < Precedence(STANDARD, '+') == Precedence(STANDARD, '-')
    ensures Precedence(STANDARD, '-') < Precedence(STANDARD, '*')
    ensures forall c :: Precedence(STANDARD, c) > 0 ==> c == '<' || c == '+' || c == '-' || c == '*'
    ensures Grammar.PunctuationFree(STANDARD) && Precedence(STANDARD, ';') < 0
  {}

  /** Main: all the items of a text. */
  method ParseText(text: string) returns (items: seq<Item>)
    ensures items == ParseFile(STANDARD, LexAll(text))
  {
    var parser := new Parser(STANDARD, text);
    items := parser.MainLoop();
  }

  /** From characters to items and back: any text that a list of items is printed to, with any blanks and comments
      between the tokens, is read as those items. */
  lemma TextRoundTrip(p: Table, items: seq<Item>, gaps: seq<string>)
    requires Grammar.PunctuationFree(p) && Precedence(p, ';') < 0
    requires ParserFiles.AllPrintable(p, items)
    requires var ts := ParserFiles.PrintFile(p, items);
      |gaps| == |ts| + 1 && GapsOk(ts, gaps) && forall i :: 0 <= i < |ts| ==> Writable(ts[i])
    ensures ParseFile(p, LexAll(Written(ParserFiles.PrintFile(p, items), gaps))) == items
  {
    LexRoundTrip(ParserFiles.PrintFile(p, items), gaps);
    ParserFiles.FileRoundTrip(p, items);
  }
}
