/** Whole files: definitions, externals and top-level expressions, printed and read back. */
module ParserFiles {
  import opened Wrappers
  import opened Parsing
  import opened Grammar
  import opened ParserCorrect

  function PrintNames(names: seq<string>): seq<Token> {
    if names == [] then [] else [Identifier(names[0])] + PrintNames(names[1..])
  }

  function PrintPrototype(proto: Prototype): seq<Token> {
    [Identifier(proto.name), Char('(')] + PrintNames(proto.args) + [Char(')')]
  }

  function PrintItem(p: Table, item: Item): seq<Token> {
    match item
    case Definition(proto, body) => [Def] + PrintPrototype(proto) + Print(p, body)
    case External(proto) => [Extern] + PrintPrototype(proto)
    case TopLevel(body) => Print(p, body)
    case Failure => []
  }

  function PrintFile(p: Table, items: seq<Item>): seq<Token> {
    if items == [] then [] else PrintItem(p, items[0]) + [Char(';')] + PrintFile(p, items[1..])
  }

  predicate Printable(p: Table, item: Item) {
    match item
    case Definition(_, body) => OperatorsKnown(p, body)
    case External(_) => true
    case TopLevel(body) => OperatorsKnown(p, body)
    case Failure => false
  }

  predicate AllPrintable(p: Table, items: seq<Item>) {
    forall i :: 0 <= i < |items| ==> Printable(p, items[i])
  }

  lemma {:induction false} NamesRoundTrip(names: seq<string>, rest: seq<Token>)
    requires rest != [] && !rest[0].Identifier?
    ensures Names(PrintNames(names) + rest) == (names, rest)
  {
    var ts := PrintNames(names) + rest;
    if names == [] {
      assert ts == rest;
    } else {
      NamesRoundTrip(names[1..], rest);
      assert ts[1..] == PrintNames(names[1..]) + rest;
      assert [names[0]] + names[1..] == names;
    }
  }

  lemma PrototypeRoundTrip(proto: Prototype, rest: seq<Token>)
    ensures ParsePrototype(PrintPrototype(proto) + rest) == Parsed(Some(proto), rest)
  {
    hide Names, PrintNames;
    var ts := PrintPrototype(proto) + rest;
    var close := [Char(')')] + rest;
    NamesRoundTrip(proto.args, close);
    assert ts[1..] == [Char('(')] + PrintNames(proto.args) + close;
    assert ts[2..] == PrintNames(proto.args) + close;
    assert close[1..] == rest;
  }

  lemma {:induction false} NamesSound(ts: seq<Token>)
    ensures ts == PrintNames(Names(ts).0) + Names(ts).1
    ensures Names(ts).1 == [] || !Names(ts).1[0].Identifier?
  {
    if ts != [] && ts[0].Identifier? { NamesSound(ts[1..]); }
  }

  /** A prototype is parsed, up to some rest, exactly if it is printed as what is before the rest. */
  lemma PrototypeExact(ts: seq<Token>, proto: Prototype, rest: seq<Token>)
    ensures ParsePrototype(ts) == Parsed(Some(proto), rest) <==> ts == PrintPrototype(proto) + rest
  {
    if ParsePrototype(ts) == Parsed(Some(proto), rest) {
      NamesSound(ts[2..]);
      var close := Names(ts[2..]).1;
      assert ts == [ts[0], ts[1]] + ts[2..] && close == [close[0]] + close[1..];
    }
    if ts == PrintPrototype(proto) + rest { PrototypeRoundTrip(proto, rest); }
  }

  lemma {:induction false} TopLevelStart(t: Tree)
    ensures Yield(t)[0].Number? || Yield(t)[0].Identifier? || Yield(t)[0] == Char('(')
  {
    if t.Infix? { TopLevelStart(t.lhs); }
  }

  /** How an item is derived. */
  datatype Sentence =
    | DefinitionOf(proto: Prototype, body: Tree)
    | ExternalOf(proto: Prototype)
    | TopLevelOf(body: Tree)

  function Text(s: Sentence): (ts: seq<Token>)
    ensures ts != []
  {
    match s
    case DefinitionOf(proto, body) => [Def] + PrintPrototype(proto) + Yield(body)
    case ExternalOf(proto) => [Extern] + PrintPrototype(proto)
    case TopLevelOf(body) => Yield(body)
  }

  function Meaning(s: Sentence): Item {
    match s
    case DefinitionOf(proto, body) => Definition(proto, Ast(body))
    case ExternalOf(proto) => External(proto)
    case TopLevelOf(body) => TopLevel(Ast(body))
  }

  predicate Bound(p: Table, s: Sentence) {
    s.ExternalOf? || WellBound(p, s.body)
  }

  /** What can follow an item without being taken for a part of it. */
  predicate Ends(p: Table, s: Sentence, rest: seq<Token>) {
    s.ExternalOf? || Stops(p, s.body, rest)
  }

  lemma ItemIsParsed(p: Table, s: Sentence, rest: seq<Token>)
    requires PunctuationFree(p) && Bound(p, s) && Ends(p, s, rest)
    ensures TryItem(p, Text(s) + rest) == Parsed(Some(Meaning(s)), rest)
  {
    hide ParseExpression, ParsePrototype, PunctuationFree, WellBound, Stops, PrintPrototype, Yield;
    var ts := Text(s) + rest;
    match s
    case DefinitionOf(proto, body) =>
      assert ts[1..] == PrintPrototype(proto) + (Yield(body) + rest);
      PrototypeRoundTrip(proto, Yield(body) + rest);
      ExpressionIsParsed(p, body, rest);
    case ExternalOf(proto) =>
      assert ts[1..] == PrintPrototype(proto) + rest;
      PrototypeRoundTrip(proto, rest);
    case TopLevelOf(body) =>
      TopLevelStart(body);
      assert ts[0] == Yield(body)[0];
      ExpressionIsParsed(p, body, rest);
  }

  /** How an item is printed. */
  function Printed(p: Table, item: Item): Sentence
    requires item != Failure
  {
    match item
    case Definition(proto, body) => DefinitionOf(proto, MinTree(p, body))
    case External(proto) => ExternalOf(proto)
    case TopLevel(body) => TopLevelOf(MinTree(p, body))
  }

  lemma ItemRoundTrip(p: Table, item: Item, rest: seq<Token>)
    requires PunctuationFree(p) && Printable(p, item) && TokPrec(p, rest) < 0 && !StartsWith(rest, '(')
    ensures var ts := PrintItem(p, item) + rest;
      |ts| > |rest| && ts[0] != Char(';') && ParseItem(p, ts) == (item, rest)
  {
    hide TryItem, MinTree, PunctuationFree, OperatorsKnown, WellBound, EndsInName, PrintPrototype, Yield;
    var s := Printed(p, item);
    if item.TopLevel? { TopLevelStart(s.body); }
    if !item.External? { MinTreeOk(p, item.body); }
    assert Text(s) == PrintItem(p, item);
    ItemIsParsed(p, s, rest);
  }

  lemma ItemThenFile(p: Table, ts: seq<Token>, item: Item, rest: seq<Token>)
    requires ts != [] && ts[0] != Char(';') && ParseItem(p, ts) == (item, rest) && StartsWith(rest, ';')
    ensures ParseFile(p, ts) == [item] + ParseFile(p, rest[1..])
  {
    hide ParseItem;
  }

  /** After a file of items the parser goes on with what follows. */
  lemma {:induction false} FileThen(p: Table, items: seq<Item>, rest: seq<Token>)
    requires PunctuationFree(p) && Precedence(p, ';') < 0
    requires AllPrintable(p, items)
    ensures ParseFile(p, PrintFile(p, items) + rest) == items + ParseFile(p, rest)
  {
    hide ParseItem, PrintItem, PunctuationFree, Printable;
    var ts := PrintFile(p, items) + rest;
    if items == [] {
      assert ts == rest;
    } else {
      var more := PrintFile(p, items[1..]) + rest;
      var next := [Char(';')] + more;
      assert ts == PrintItem(p, items[0]) + next;
      ItemRoundTrip(p, items[0], next);
      FileThen(p, items[1..], rest);
      ItemThenFile(p, ts, items[0], next);
      assert next[1..] == more;
      assert items == [items[0]] + items[1..];
    }
  }

  /** A file of items with semicolons between them is read back item by item, without an error. */
  lemma FileRoundTrip(p: Table, items: seq<Item>)
    requires PunctuationFree(p) && Precedence(p, ';') < 0
    requires AllPrintable(p, items)
    ensures ParseFile(p, PrintFile(p, items)) == items
  {
    hide PrintFile, PunctuationFree, AllPrintable;
    FileThen(p, items, []);
    assert PrintFile(p, items) + [] == PrintFile(p, items);
  }

  // ----- Only derived items are parsed -----

  lemma ItemSound(p: Table, ts: seq<Token>) returns (s: Sentence)
    requires TryItem(p, ts).result.Some?
    ensures Bound(p, s) && Ends(p, s, TryItem(p, ts).rest) && ts == Text(s) + TryItem(p, ts).rest
    ensures TryItem(p, ts).result.value == Meaning(s)
  {
    hide ParseExpression, ParsePrototype, WellBound, PrintPrototype, Yield, Ast;
    if ts[0] == Def {
      var proto := ParsePrototype(ts[1..]);
      PrototypeExact(ts[1..], proto.result.value, proto.rest);
      var body := ExpressionSound(p, proto.rest);
      s := DefinitionOf(proto.result.value, body);
      assert ts == [Def] + ts[1..];
    } else if ts[0] == Extern {
      var proto := ParsePrototype(ts[1..]);
      PrototypeExact(ts[1..], proto.result.value, proto.rest);
      s := ExternalOf(proto.result.value);
      assert ts == [Extern] + ts[1..];
    } else {
      var body := ExpressionSound(p, ts);
      s := TopLevelOf(body);
    }
  }

  /** An item is parsed, up to some rest, exactly if it is derived by what is before the rest, and the rest does not go
      on with it. */
  lemma ItemExact(p: Table, ts: seq<Token>, item: Item, rest: seq<Token>)
    requires PunctuationFree(p) && ts != []
    ensures ParseItem(p, ts) == (item, rest) && item != Failure
        <==> exists s :: Bound(p, s) && Meaning(s) == item && ts == Text(s) + rest && Ends(p, s, rest)
  {
    hide TryItem, PunctuationFree, Bound, Ends;
    if ParseItem(p, ts) == (item, rest) && item != Failure { var s := ItemSound(p, ts); }
    if s :| Bound(p, s) && Meaning(s) == item && ts == Text(s) + rest && Ends(p, s, rest) { ItemIsParsed(p, s, rest); }
  }
}
