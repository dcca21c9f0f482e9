/** How far the parser reads, and what becomes of a file with an error in it: whether it succeeds or fails, the parser
    stops after the longest beginning of a sentence, and after an error it drops one token. */
module ParserRecovery {
  import opened Wrappers
  import opened Parsing
  import opened Grammar
  import opened ParserCorrect
  import opened ParserFiles
  import opened ParserLookahead

  // ----- What a failed parse has read can be completed -----

  /** The tokens read of ts, up to rest, become the sentence of t when more is put after them. */
  ghost predicate Completes(p: Table, t: Tree, ts: seq<Token>, rest: seq<Token>, read: seq<Token>, more: seq<Token>) {
    WellBound(p, t) && ts == read + rest && Yield(t) == read + more
  }

  const ANY := Literal("0")

  lemma {:induction false} PrimaryBegins(p: Table, ts: seq<Token>) returns (t: Tree, read: seq<Token>, more: seq<Token>)
    requires ParsePrimary(p, ts).result.None?
    ensures !t.Infix? && Completes(p, t, ts, ParsePrimary(p, ts).rest, read, more)
    decreases |ts|, 1
  {
    hide ParseParen, ParseIdentifier;
    t, read, more := ANY, [], Yield(ANY);
    assert ts == [] + ts;
    if ts != [] && ts[0] == Char('(') {
      t, read, more := ParenBegins(p, ts[1..]);
      assert ts == [Char('(')] + ts[1..];
    } else if ts != [] && ts[0].Identifier? {
      t, read, more := IdentifierBegins(p, ts[0].name, ts[1..]);
      assert ts == [ts[0]] + ts[1..];
    }
  }

  lemma {:induction false} ParenBegins(p: Table, ts: seq<Token>) returns (t: Tree, read: seq<Token>, more: seq<Token>)
    requires ParseParen(p, ts).result.None?
    ensures !t.Infix? && Completes(p, t, [Char('(')] + ts, ParseParen(p, ts).rest, read, more)
    decreases |ts|, 3
  {
    hide ParseExpression;
    var inner: Tree;
    if ParseExpression(p, ts).result.Some? {
      inner := ExpressionSound(p, ts);
      read, more := Yield(inner), [];
    } else {
      inner, read, more := ExpressionBegins(p, ts);
    }
    t, read, more := Paren(inner), [Char('(')] + read, more + [Char(')')];
  }

  lemma {:induction false} IdentifierBegins(p: Table, name: string, ts: seq<Token>)
    returns (t: Tree, read: seq<Token>, more: seq<Token>)
    requires ParseIdentifier(p, name, ts).result.None?
    ensures !t.Infix? && Completes(p, t, [Identifier(name)] + ts, ParseIdentifier(p, name, ts).rest, read, more)
    decreases |ts|, 3
  {
    hide ParseArgs;
    t, read, more := ArgsBegin(p, name, [], [], ts[1..]);
    assert ts == [Char('(')] + ts[1..];
    read := [Identifier(name), Char('(')] + read;
    assert Yield(t) == [Identifier(name), Char('(')] + (YieldArgs(t, 0) + [Char(')')]);
  }

  lemma {:induction false} ArgsBegin(p: Table, name: string, done: seq<Tree>, args: seq<Expr>, ts: seq<Token>)
    returns (t: Tree, read: seq<Token>, more: seq<Token>)
    requires forall i :: 0 <= i < |done| ==> WellBound(p, done[i])
    requires ParseArgs(p, args, ts).result.None?
    ensures t.Call? && t.callee == name && WellBound(p, t) && |done| < |t.args| && t.args[..|done|] == done
    ensures ts == read + ParseArgs(p, args, ts).rest && YieldArgs(t, |done|) + [Char(')')] == read + more
    decreases |ts|, 3
  {
    hide ParseExpression, Yield, Ast, EndsInName, WellBound, YieldArgs;
    var arg := ParseExpression(p, ts);
    if arg.result.None? {
      var last: Tree;
      last, read, more := ExpressionBegins(p, ts);
      t, more := Call(name, done + [last]), more + [Char(')')];
      LastArg(p, t, done, last);
    } else {
      var first := ExpressionSound(p, ts);
      if StartsWith(arg.rest, ',') {
        t, read, more := ArgsBegin(p, name, done + [first], args + [arg.result.value], arg.rest[1..]);
        OneArg(t, done, first);
        assert arg.rest == [Char(',')] + arg.rest[1..];
        read := Yield(first) + [Char(',')] + read;
      } else {
        t, read, more := Call(name, done + [first]), Yield(first), [Char(')')];
        LastArg(p, t, done, first);
      }
    }
  }

  lemma LastArg(p: Table, t: Tree, done: seq<Tree>, last: Tree)
    requires t.Call? && t.args == done + [last] && WellBound(p, last)
    requires forall i :: 0 <= i < |done| ==> WellBound(p, done[i])
    ensures WellBound(p, t) && t.args[..|done|] == done && YieldArgs(t, |done|) == Yield(last)
  {}

  lemma OneArg(t: Tree, done: seq<Tree>, arg: Tree)
    requires t.Call? && |done| + 1 < |t.args| && t.args[..|done| + 1] == done + [arg]
    ensures t.args[..|done|] == done
    ensures YieldArgs(t, |done|) + [Char(')')]
      == Yield(arg) + [Char(',')] + (YieldArgs(t, |done| + 1) + [Char(')')])
  {
    assert t.args[|done|] == t.args[..|done| + 1][|done|] == arg;
    assert t.args[..|done|] == t.args[..|done| + 1][..|done|];
  }

  lemma {:induction false} ExpressionBegins(p: Table, ts: seq<Token>)
    returns (t: Tree, read: seq<Token>, more: seq<Token>)
    requires ParseExpression(p, ts).result.None?
    ensures Completes(p, t, ts, ParseExpression(p, ts).rest, read, more)
    decreases |ts|, 2
  {
    hide ParsePrimary, ParseBinOpRhs, Yield, WellBound;
    var lhs := ParsePrimary(p, ts);
    if lhs.result.None? {
      t, read, more := PrimaryBegins(p, ts);
    } else {
      var first := PrimarySound(p, ts);
      t, read, more := RhsBegins(p, 0, first, lhs.rest);
    }
  }

  /** The operator loop, having read the tree l. */
  lemma {:induction false} RhsBegins(p: Table, min: nat, l: Tree, ts: seq<Token>)
    returns (t: Tree, read: seq<Token>, more: seq<Token>)
    requires WellBound(p, l) && (l.Infix? ==> TokPrec(p, ts) <= Precedence(p, l.op))
    requires ParseBinOpRhs(p, min, Ast(l), ts).result.None?
    ensures t.Infix? && Precedence(p, t.op) >= min
    ensures Completes(p, t, Yield(l) + ts, ParseBinOpRhs(p, min, Ast(l), ts).rest, read, more)
    decreases |ts|, 0
  {
    hide ParseOperand, Precedence, Yield, Ast;
    var prec, op := TokPrec(p, ts), ts[0].c;
    var rhs := ParseOperand(p, prec, ts[1..]);
    assert ts == [Char(op)] + ts[1..];
    if rhs.result.None? {
      var r: Tree;
      r, read, more := OperandBegins(p, prec, ts[1..]);
      t, read := Infix(op, l, r), Yield(l) + [Char(op)] + read;
      InfixOf(op, l, r, []);
      assert Yield(t) + [] == Yield(t) && Yield(r) + [] == Yield(r);
    } else {
      var r := OperandSound(p, prec, ts[1..]);
      InfixOf(op, l, r, rhs.rest);
      t, read, more := RhsBegins(p, min, Infix(op, l, r), rhs.rest);
    }
  }

  lemma {:induction false} OperandBegins(p: Table, prec: nat, ts: seq<Token>)
    returns (t: Tree, read: seq<Token>, more: seq<Token>)
    requires ParseOperand(p, prec, ts).result.None?
    ensures t.Infix? ==> prec < Precedence(p, t.op)
    ensures Completes(p, t, ts, ParseOperand(p, prec, ts).rest, read, more)
    decreases |ts|, 2
  {
    hide ParsePrimary, ParseBinOpRhs, Precedence, Yield, WellBound;
    var rhs := ParsePrimary(p, ts);
    if rhs.result.None? {
      t, read, more := PrimaryBegins(p, ts);
    } else {
      var first := PrimarySound(p, ts);
      t, read, more := RhsBegins(p, prec + 1, first, rhs.rest);
    }
  }

  lemma PrototypeBegins(ts: seq<Token>) returns (proto: Prototype, read: seq<Token>, more: seq<Token>)
    requires ParsePrototype(ts).result.None?
    ensures ts == read + ParsePrototype(ts).rest && PrintPrototype(proto) == read + more
  {
    if ts == [] || !ts[0].Identifier? {
      proto, read := Prototype("f", []), [];
      more := PrintPrototype(proto);
    } else if !StartsWith(ts[1..], '(') {
      proto, read, more := Prototype(ts[0].name, []), [ts[0]], [Char('('), Char(')')];
    } else {
      NamesSound(ts[2..]);
      proto, more := Prototype(ts[0].name, Names(ts[2..]).0), [Char(')')];
      read := [ts[0], ts[1]] + PrintNames(proto.args);
      assert ts == [ts[0], ts[1]] + ts[2..];
    }
  }

  // ----- The parser stops after the longest beginning of an item -----

  ghost predicate Viable(p: Table, read: seq<Token>) {
    exists s :: Bound(p, s) && read <= Text(s)
  }

  ghost predicate IsSentence(p: Table, read: seq<Token>) {
    exists s :: Bound(p, s) && read == Text(s)
  }

  lemma DefinitionBegins(p: Table, ts: seq<Token>) returns (s: Sentence, read: seq<Token>, more: seq<Token>)
    requires ParseDefinition(p, ts).result.None?
    ensures s.DefinitionOf? && Bound(p, s) && ts == read + ParseDefinition(p, ts).rest
    ensures Text(s) == [Def] + (read + more)
  {
    hide ParseExpression, ParsePrototype, PrintPrototype;
    var proto := ParsePrototype(ts);
    if proto.result.None? {
      var any: Prototype;
      any, read, more := PrototypeBegins(ts);
      s, more := DefinitionOf(any, ANY), more + Yield(ANY);
    } else {
      var body: Tree;
      PrototypeExact(ts, proto.result.value, proto.rest);
      body, read, more := ExpressionBegins(p, proto.rest);
      s, read := DefinitionOf(proto.result.value, body), PrintPrototype(proto.result.value) + read;
    }
  }

  lemma ExternBegins(ts: seq<Token>) returns (s: Sentence, read: seq<Token>, more: seq<Token>)
    requires ParseExtern(ts).result.None?
    ensures s.ExternalOf? && ts == read + ParseExtern(ts).rest && Text(s) == [Extern] + (read + more)
  {
    hide ParsePrototype, PrintPrototype;
    var proto: Prototype;
    proto, read, more := PrototypeBegins(ts);
    s := ExternalOf(proto);
  }

  lemma ItemBegins(p: Table, ts: seq<Token>) returns (s: Sentence, read: seq<Token>, more: seq<Token>)
    requires TryItem(p, ts).result.None?
    ensures Bound(p, s) && ts == read + TryItem(p, ts).rest && Text(s) == read + more
  {
    hide ParseExpression, ParseDefinition, ParseExtern, WellBound, PrintPrototype, Yield;
    if ts != [] && ts[0] == Def {
      s, read, more := DefinitionBegins(p, ts[1..]);
      read := [Def] + read;
    } else if ts != [] && ts[0] == Extern {
      s, read, more := ExternBegins(ts[1..]);
      read := [Extern] + read;
    } else {
      var body: Tree;
      body, read, more := ExpressionBegins(p, ts);
      s := TopLevelOf(body);
    }
  }

  /** What is read begins an item, and is an item after a success. */
  lemma ReadIsViable(p: Table, ts: seq<Token>) returns (read: seq<Token>)
    ensures ts == read + TryItem(p, ts).rest && Viable(p, read)
    ensures TryItem(p, ts).result.Some? ==> IsSentence(p, read)
  {
    hide TryItem, Bound, Text;
    if TryItem(p, ts).result.Some? {
      var s := ItemSound(p, ts);
      read := Text(s);
    } else {
      var s, more;
      s, read, more := ItemBegins(p, ts);
    }
  }

  /** The token after what is read does not go on with it. */
  lemma NextIsNotViable(p: Table, read: seq<Token>, rest: seq<Token>)
    requires PunctuationFree(p) && rest != [] && TryItem(p, read + rest).rest == rest
    ensures !Viable(p, read + [rest[0]])
  {
    hide TryItem, PunctuationFree, Bound, Text;
    if s :| Bound(p, s) && read + [rest[0]] <= Text(s) {
      var others := Text(s)[|read| + 1..];
      assert rest == [rest[0]] + rest[1..];
      OneTokenAhead(p, read, rest[0], rest[1..], others);
      assert Text(s) + [] == read + ([rest[0]] + others);
      EndOfFile(p, s);
      ItemIsParsed(p, s, []);
      assert false;
    }
  }

  lemma EndOfFile(p: Table, s: Sentence)
    ensures Ends(p, s, [])
  {}

  /** An operator after a sentence, and an operand after that. */
  lemma {:induction false} Attach(p: Table, t: Tree, c: char) returns (u: Tree)
    requires WellBound(p, t) && Precedence(p, c) > 0
    ensures WellBound(p, u) && Yield(u) == Yield(t) + [Char(c)] + Yield(ANY)
    ensures u.Infix? && (u.op == c || (t.Infix? && u.op == t.op))
  {
    if t.Infix? && Precedence(p, t.op) < Precedence(p, c) {
      var r := Attach(p, t.rhs, c);
      u := Infix(t.op, t.lhs, r);
    } else {
      u := Infix(c, t, ANY);
    }
  }

  /** A sentence whose last name becomes a call. */
  lemma {:induction false} CallLast(p: Table, t: Tree) returns (u: Tree)
    requires WellBound(p, t) && EndsInName(t)
    ensures WellBound(p, u) && Yield(u) == Yield(t) + [Char('('), Char(')')]
    ensures u.Infix? <==> t.Infix?
    ensures u.Infix? ==> u.op == t.op
  {
    if t.Infix? {
      var r := CallLast(p, t.rhs);
      u := Infix(t.op, t.lhs, r);
    } else {
      u := Call(t.name, []);
    }
  }

  /** What does not end an expression goes on with it. */
  lemma GoesOn(p: Table, t: Tree, rest: seq<Token>) returns (u: Tree)
    requires WellBound(p, t) && !Stops(p, t, rest)
    ensures rest != [] && WellBound(p, u) && Yield(t) + [rest[0]] <= Yield(u)
  {
    hide WellBound, Yield;
    if TokPrec(p, rest) >= 0 { u := Attach(p, t, rest[0].c); } else { u := CallLast(p, t); }
  }

  lemma ItemGoesOn(p: Table, s: Sentence, rest: seq<Token>)
    requires Bound(p, s) && !Ends(p, s, rest)
    ensures rest != [] && Viable(p, Text(s) + [rest[0]])
  {
    hide WellBound, Yield, Stops;
    var u := GoesOn(p, s.body, rest);
    var longer := s.(body := u);
    assert Bound(p, longer) && Text(s) + [rest[0]] <= Text(longer);
  }

  lemma SentenceIsParsed(p: Table, read: seq<Token>, rest: seq<Token>)
    requires PunctuationFree(p) && IsSentence(p, read) && TryItem(p, read + rest).rest == rest
    ensures TryItem(p, read + rest).result.Some?
  {
    hide TryItem, PunctuationFree, Bound, Ends, Text;
    var s :| Bound(p, s) && read == Text(s);
    if Ends(p, s, rest) {
      ItemIsParsed(p, s, rest);
    } else {
      ItemGoesOn(p, s, rest);
      NextIsNotViable(p, read, rest);
    }
  }

  lemma ViablePrefix(p: Table, read: seq<Token>, longer: seq<Token>)
    requires read <= longer && Viable(p, longer)
    ensures Viable(p, read)
  {
    hide Bound, Text;
  }

  /** With or without success, what the parser reads is the longest beginning of an item, and it succeeds exactly if
      that is an item. */
  lemma ReadsLongest(p: Table, read: seq<Token>, rest: seq<Token>)
    requires PunctuationFree(p)
    ensures TryItem(p, read + rest).rest == rest
      <==> Viable(p, read) && (rest != [] ==> !Viable(p, read + [rest[0]]))
    ensures TryItem(p, read + rest).rest == rest ==>
      (TryItem(p, read + rest).result.Some? <==> IsSentence(p, read))
  {
    hide TryItem, PunctuationFree, Viable, IsSentence;
    var ts := read + rest;
    var stop := TryItem(p, ts).rest;
    var actual := ReadIsViable(p, ts);
    assert actual == ts[..|actual|] && read == ts[..|read|] && stop == ts[|actual|..] && rest == ts[|read|..];
    if stop == rest {
      if rest != [] { NextIsNotViable(p, read, rest); }
      if IsSentence(p, read) { SentenceIsParsed(p, read, rest); }
    } else if |actual| < |read| {
      NextIsNotViable(p, actual, stop);
      assert actual + [stop[0]] == ts[..|actual| + 1] <= read;
      if Viable(p, read) { ViablePrefix(p, actual + [stop[0]], read); }
    } else {
      assert read + [rest[0]] == ts[..|read| + 1] <= actual;
      ViablePrefix(p, read + [rest[0]], actual);
    }
  }

  // ----- Recovery -----

  /** An error is reported, and exactly one token dropped, where what has been read is no item and the next token
      cannot go on with it, or at the end of the file. */
  lemma DropsOneToken(p: Table, read: seq<Token>, x: Token, rest: seq<Token>)
    requires PunctuationFree(p)
    ensures ParseItem(p, read + ([x] + rest)) == (Failure, rest)
      <==> || (Viable(p, read) && !Viable(p, read + [x]) && !IsSentence(p, read))
           || (rest == [] && Viable(p, read + [x]) && !IsSentence(p, read + [x]))
  {
    hide TryItem, PunctuationFree, Viable, IsSentence;
    var ts := read + ([x] + rest);
    ReadsLongest(p, read, [x] + rest);
    ReadsLongest(p, read + [x], []);
    assert read + [x] + [] == read + [x];
    if rest == [] { assert ts == read + [x]; }
    var actual := ReadIsViable(p, ts);
    var stop := TryItem(p, ts).rest;
    if stop != [] && stop[1..] == rest {
      assert stop == ts[|ts| - |stop|..] == [x] + rest;
    }
  }

  lemma {:induction false} ItemStart(p: Table, read: seq<Token>)
    requires Viable(p, read) && read != []
    ensures !read[0].Char? || read[0].c == '('
  {
    var s :| Bound(p, s) && read <= Text(s);
    if s.TopLevelOf? { TopLevelStart(s.body); }
    assert read[0] == Text(s)[0];
  }

  /** The tokens that can start an item. */
  lemma StartsItem(p: Table, x: Token)
    ensures Viable(p, [x]) <==> !x.Char? || x.c == '('
  {
    if Viable(p, [x]) { ItemStart(p, [x]); }
    var s := match x
      case Def => DefinitionOf(Prototype("f", []), ANY)
      case Extern => ExternalOf(Prototype("f", []))
      case Identifier(name) => TopLevelOf(Name(name))
      case Number(lexeme) => TopLevelOf(Literal(lexeme))
      case Char(_) => TopLevelOf(Paren(ANY));
    if !x.Char? || x.c == '(' {
      assert WellBound(p, ANY);
      assert Text(s)[0] == x;
      assert Bound(p, s) && [x] <= Text(s);
    }
  }

  lemma OneFailure(p: Table, read: seq<Token>, x: Token, rest: seq<Token>)
    requires PunctuationFree(p) && (read == [] ==> x != Char(';'))
    requires Viable(p, read) && !Viable(p, read + [x]) && !IsSentence(p, read)
    ensures ParseFile(p, read + ([x] + rest)) == [Failure] + ParseFile(p, rest)
  {
    hide ParseItem, PunctuationFree, Viable, IsSentence;
    DropsOneToken(p, read, x, rest);
    if read != [] { ItemStart(p, read); }
  }

  /** Recovery: the beginning of an item with a token that cannot go on with it, between two files, costs one error, and
      every item of both files is read. */
  lemma ErrorIsLocal(p: Table, a: seq<Item>, read: seq<Token>, x: Token, b: seq<Item>)
    requires PunctuationFree(p) && Precedence(p, ';') < 0
    requires AllPrintable(p, a)
    requires AllPrintable(p, b)
    requires Viable(p, read) && !Viable(p, read + [x]) && !IsSentence(p, read) && (read == [] ==> x != Char(';'))
    ensures ParseFile(p, PrintFile(p, a) + (read + ([x] + PrintFile(p, b)))) == a + [Failure] + b
  {
    hide ParseFile, PrintFile, PunctuationFree, Printable, Viable, IsSentence;
    var rest := PrintFile(p, b);
    FileThen(p, a, read + ([x] + rest));
    OneFailure(p, read, x, rest);
    FileRoundTrip(p, b);
    assert a + ([Failure] + b) == a + [Failure] + b;
  }

  lemma StrayFails(p: Table, c: char, rest: seq<Token>)
    requires PunctuationFree(p) && c != '(' && c != ';'
    ensures ParseFile(p, [Char(c)] + rest) == [Failure] + ParseFile(p, rest)
  {
    hide ParseFile, PunctuationFree;
    StartsItem(p, Char(c));
    StartsItem(p, Def);
    ViablePrefix(p, [], [Def]);
    assert [] + [Char(c)] == [Char(c)] && [] + ([Char(c)] + rest) == [Char(c)] + rest;
    OneFailure(p, [], Char(c), rest);
  }

  /** A token that starts no item, between two files, costs one error. */
  lemma StrayToken(p: Table, a: seq<Item>, c: char, b: seq<Item>)
    requires PunctuationFree(p) && Precedence(p, ';') < 0 && c != '(' && c != ';'
    requires AllPrintable(p, a)
    requires AllPrintable(p, b)
    ensures ParseFile(p, PrintFile(p, a) + [Char(c)] + PrintFile(p, b)) == a + [Failure] + b
  {
    hide ParseFile, PrintFile, PunctuationFree, AllPrintable;
    var before, after := PrintFile(p, a), PrintFile(p, b);
    FileThen(p, a, [Char(c)] + after);
    StrayFails(p, c, after);
    FileRoundTrip(p, b);
    assert before + [Char(c)] + after == before + ([Char(c)] + after);
    assert a + [Failure] + b == a + ([Failure] + b);
  }
}
