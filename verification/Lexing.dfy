/** What the lexer of kaleidoscope/ast makes of a text, and when a text can be read back as the tokens it was
    written from. */
module Lexing {
  import opened Wrappers
  import opened Parsing

  /** Character classes of the C locale. */
  predicate IsSpace(c: char) {
    c == ' ' || '\t' <= c <= '\r'
  }

  predicate IsAlpha(c: char) {
    'a' <= c <= 'z' || 'A' <= c <= 'Z'
  }

  predicate IsDigit(c: char) {
    '0' <= c <= '9'
  }

  predicate IsAlnum(c: char) {
    IsAlpha(c) || IsDigit(c)
  }

  predicate IsNumeric(c: char) {
    IsDigit(c) || c == '.'
  }

  predicate EndsLine(c: char) {
    c == '\n' || c == '\r'
  }

  predicate InLine(c: char) {
    !EndsLine(c)
  }

  /** How many characters at the start of cs satisfy ok. */
  function Run(ok: char -> bool, cs: string): (n: nat)
    ensures n <= |cs| && (n < |cs| ==> !ok(cs[n]))
    ensures forall i :: 0 <= i < n ==> ok(cs[i])
  {
    if cs == [] || !ok(cs[0]) then 0 else 1 + Run(ok, cs[1..])
  }

  function Word(name: string): Token {
    if name == "def" then Def else if name == "extern" then Extern else Identifier(name)
  }

  /** The next token and the characters after it, or no token at the end of the file. */
  function Lex(cs: string): (r: (Option<Token>, string))
    ensures |r.1| <= |cs| && (r.0.Some? ==> |r.1| < |cs|) && (r.0.None? ==> r.1 == [])
    decreases |cs|
  {
    if cs == [] then (None, [])
    else if IsSpace(cs[0]) then Lex(cs[1..])
    else if IsAlpha(cs[0]) then
      var n := Run(IsAlnum, cs);
      assert n > 0;
      (Some(Word(cs[..n])), cs[n..])
    else if IsNumeric(cs[0]) then
      var n := Run(IsNumeric, cs);
      assert n > 0;
      (Some(Number(cs[..n])), cs[n..])
    else if cs[0] == '#' then Lex(cs[1..][Run(InLine, cs[1..])..])
    else (Some(Char(cs[0])), cs[1..])
  }

  /** All tokens of a text. */
  function LexAll(cs: string): (ts: seq<Token>)
    ensures |ts| <= |cs|
    decreases |cs|
  {
    var t := Lex(cs);
    if t.0.None? then [] else [t.0.value] + LexAll(t.1)
  }

  // ----- Writing tokens -----

  predicate All(ok: char -> bool, cs: string) {
    forall i :: 0 <= i < |cs| ==> ok(cs[i])
  }

  /** Tokens the lexer can return. */
  predicate Writable(t: Token) {
    match t
    case Identifier(name) => name != [] && IsAlpha(name[0]) && All(IsAlnum, name) && name != "def" && name != "extern"
    case Number(lexeme) => lexeme != [] && All(IsNumeric, lexeme)
    case Char(c) => !IsSpace(c) && !IsAlnum(c) && c != '.' && c != '#'
    case _ => true
  }

  function Text(t: Token): string {
    match t
    case Def => "def"
    case Extern => "extern"
    case Identifier(name) => name
    case Number(lexeme) => lexeme
    case Char(c) => [c]
  }

  /** White space and comments, each comment with the end of its line. */
  predicate IsGap(g: string)
    decreases |g|
  {
    if g == [] then true
    else if IsSpace(g[0]) then IsGap(g[1..])
    else
      && g[0] == '#'
      && var n := Run(InLine, g[1..]);
         n < |g| - 1 && IsGap(g[1..][n..])
  }

  /** Written without anything in between, the two would be read as something else. */
  predicate Clash(t: Token, u: Token) {
    match t
    case Char(_) => false
    case Number(_) => Text(u) != [] && IsNumeric(Text(u)[0])
    case _ => Text(u) != [] && IsAlnum(Text(u)[0])
  }

  /** A text for the tokens: a gap before each, and one at the end. */
  function Written(ts: seq<Token>, gaps: seq<string>): string
    requires |gaps| == |ts| + 1
  {
    if ts == [] then gaps[0] else gaps[0] + Text(ts[0]) + Written(ts[1..], gaps[1..])
  }

  predicate GapsOk(ts: seq<Token>, gaps: seq<string>)
    requires |gaps| == |ts| + 1
  {
    && (forall i :: 0 <= i < |gaps| ==> IsGap(gaps[i]))
    && (forall i :: 0 <= i < |ts| - 1 && gaps[i + 1] == [] ==> !Clash(ts[i], ts[i + 1]))
  }

  lemma RunThen(ok: char -> bool, cs: string, rest: string)
    requires All(ok, cs) && (rest != [] ==> !ok(rest[0]))
    ensures Run(ok, cs + rest) == |cs| && (cs + rest)[..|cs|] == cs && (cs + rest)[|cs|..] == rest
  {
  }

  /** Gaps are not seen. */
  lemma {:induction false} GapIsSkipped(g: string, rest: string)
    requires IsGap(g)
    ensures Lex(g + rest) == Lex(rest)
    decreases |g|
  {
    hide Run;
    var cs := g + rest;
    if g == [] {
      assert cs == rest;
    } else if IsSpace(g[0]) {
      GapIsSkipped(g[1..], rest);
      assert cs[1..] == g[1..] + rest;
    } else {
      var line := g[1..];
      assert cs[1..] == line + rest;
      RunWithin(InLine, line, rest);
      GapIsSkipped(line[Run(InLine, line)..], rest);
    }
  }

  /** A comment without the end of its line, as the last line of a file can be. */
  predicate IsOpenComment(c: string) {
    c != [] && c[0] == '#' && All(InLine, c)
  }

  lemma OpenCommentAlone(c: string)
    requires IsOpenComment(c)
    ensures Lex(c) == (None, [])
  {
    assert All(InLine, c[1..]) && c[1..] + [] == c[1..];
    RunThen(InLine, c[1..], []);
  }

  lemma {:induction false} LexBeforeComment(cs: string, c: string)
    requires IsOpenComment(c)
    ensures Lex(cs + c) == if Lex(cs).0.None? then (None, []) else (Lex(cs).0, Lex(cs).1 + c)
    decreases |cs|
  {
    hide Run;
    var whole := cs + c;
    if cs == [] {
      assert whole == c;
      OpenCommentAlone(c);
    } else {
      assert whole[0] == cs[0] && whole[1..] == cs[1..] + c;
      if IsSpace(cs[0]) {
        LexBeforeComment(cs[1..], c);
      } else if IsAlpha(cs[0]) {
        RunWithin(IsAlnum, cs, c);
      } else if IsNumeric(cs[0]) {
        RunWithin(IsNumeric, cs, c);
      } else if cs[0] == '#' {
        CommentBeforeComment(cs[1..], c);
        LexBeforeComment(cs[1..][Run(InLine, cs[1..])..], c);
      }
    }
  }

  /** A comment in front ends before the open one, or takes it in. */
  lemma CommentBeforeComment(line: string, c: string)
    requires IsOpenComment(c)
    ensures Lex((line + c)[Run(InLine, line + c)..]) == Lex(line[Run(InLine, line)..] + c)
  {
    var n := Run(InLine, line);
    if n < |line| {
      RunWithin(InLine, line, c);
    } else {
      assert All(InLine, line + c) && line + c + [] == line + c && line[n..] + c == c;
      RunThen(InLine, line + c, []);
      OpenCommentAlone(c);
    }
  }

  /** A run that ends before the end of cs, or at something that does not go on with it, is the same with more text. */
  lemma {:induction false} RunWithin(ok: char -> bool, cs: string, c: string)
    requires Run(ok, cs) < |cs| || (c != [] && !ok(c[0]))
    ensures Run(ok, cs + c) == Run(ok, cs)
    ensures (cs + c)[..Run(ok, cs)] == cs[..Run(ok, cs)] && (cs + c)[Run(ok, cs)..] == cs[Run(ok, cs)..] + c
  {
    if cs == [] {
      assert cs + c == c;
    } else {
      assert (cs + c)[1..] == cs[1..] + c;
      if ok(cs[0]) { RunWithin(ok, cs[1..], c); }
    }
  }

  /** A comment at the end of a file, without an end of its line, is not seen either. */
  lemma {:induction false} OpenCommentIsSkipped(cs: string, c: string)
    requires IsOpenComment(c)
    ensures LexAll(cs + c) == LexAll(cs)
    decreases |cs|
  {
    hide Lex, IsOpenComment;
    LexBeforeComment(cs, c);
    if Lex(cs).0.Some? { OpenCommentIsSkipped(Lex(cs).1, c); }
  }

  /** What may follow a token for it to be read back. */
  predicate Ends(t: Token, rest: string) {
    match t
    case Char(_) => true
    case Number(_) => rest != [] ==> !IsNumeric(rest[0])
    case _ => rest != [] ==> !IsAlnum(rest[0])
  }

  /** A token is read back exactly if what follows does not lengthen it. */
  lemma TokenIsReadBack(t: Token, rest: string)
    requires Writable(t)
    ensures Lex(Text(t) + rest) == (Some(t), rest) <==> Ends(t, rest)
  {
    var text := Text(t);
    var cs := text + rest;
    match t
    case Char(c) => assert cs[1..] == rest;
    case Number(_) =>
      if Ends(t, rest) { RunThen(IsNumeric, text, rest); } else { }
    case _ =>
      assert All(IsAlnum, text) && IsAlpha(text[0]) && Word(text) == t;
      if Ends(t, rest) { RunThen(IsAlnum, text, rest); } else { }
  }

  /** What is written after the first token does not lengthen it, unless the two clash. */
  lemma WrittenEnds(ts: seq<Token>, gaps: seq<string>)
    requires ts != [] && |gaps| == |ts| + 1 && GapsOk(ts, gaps) && forall i :: 0 <= i < |ts| ==> Writable(ts[i])
    ensures Ends(ts[0], Written(ts[1..], gaps[1..]))
  {
    var g := gaps[1];
    var rest := Written(ts[1..], gaps[1..]);
    if g != [] {
      assert rest[0] == g[0];
    } else if |ts| > 1 {
      assert !Clash(ts[0], ts[0 + 1]);
      assert Writable(ts[1]) && Text(ts[1]) != [];
      assert rest[0] == Text(ts[1])[0];
    }
  }

  /** The first token is read, and the others are still written in what is left. */
  lemma FirstIsReadBack(ts: seq<Token>, gaps: seq<string>)
    requires ts != [] && |gaps| == |ts| + 1 && GapsOk(ts, gaps) && forall i :: 0 <= i < |ts| ==> Writable(ts[i])
    ensures Lex(Written(ts, gaps)) == (Some(ts[0]), Written(ts[1..], gaps[1..]))
  {
    var rest := Written(ts[1..], gaps[1..]);
    WrittenEnds(ts, gaps);
    hide Lex, Writable, Text, Clash, Ends;
    assert Written(ts, gaps) == gaps[0] + (Text(ts[0]) + rest);
    GapIsSkipped(gaps[0], Text(ts[0]) + rest);
    TokenIsReadBack(ts[0], rest);
  }

  lemma LaterGapsOk(ts: seq<Token>, gaps: seq<string>)
    requires ts != [] && |gaps| == |ts| + 1 && GapsOk(ts, gaps)
    ensures GapsOk(ts[1..], gaps[1..])
  {
    hide IsGap, Clash;
    forall i | 0 <= i < |ts| - 2 && gaps[1..][i + 1] == [] ensures !Clash(ts[1..][i], ts[1..][i + 1]) {
      assert !Clash(ts[i + 1], ts[i + 2]);
    }
  }

  /** The tokens of a text are those it was written from, whatever blanks and comments are between them. */
  lemma {:induction false} LexRoundTrip(ts: seq<Token>, gaps: seq<string>)
    requires |gaps| == |ts| + 1 && GapsOk(ts, gaps) && forall i :: 0 <= i < |ts| ==> Writable(ts[i])
    ensures LexAll(Written(ts, gaps)) == ts
  {
    if ts == [] {
      GapIsSkipped(gaps[0], []);
      assert Written(ts, gaps) == gaps[0] + [];
    } else {
      hide Lex, Writable, GapsOk, Written;
      FirstIsReadBack(ts, gaps);
      LaterGapsOk(ts, gaps);
      LexRoundTrip(ts[1..], gaps[1..]);
    }
  }

  /** Two tokens with nothing in between are read back exactly if they do not clash. */
  lemma ClashIsLost(t: Token, u: Token)
    requires Writable(t) && Writable(u)
    ensures LexAll(Text(t) + Text(u)) == [t, u] <==> !Clash(t, u)
  {
    hide Lex, Writable, Clash, Text;
    if Clash(t, u) {
      var cs := Text(t) + Text(u);
      ClashLonger(t, u);
      assert LexAll(cs) != [] ==> Lex(cs).0 == Some(LexAll(cs)[0]);
    } else {
      NoClash(t, u);
    }
  }

  lemma NoClash(t: Token, u: Token)
    requires Writable(t) && Writable(u) && !Clash(t, u)
    ensures LexAll(Text(t) + Text(u)) == [t, u]
  {
    var gaps: seq<string> := [[], [], []];
    hide Lex, LexAll, Writable, Clash, Text;
    LexRoundTrip([t, u], gaps);
    assert Written([u], gaps[1..]) == Text(u) + Written([], gaps[1..][1..]);
    assert [t, u][1..] == [u];
    assert Written([t, u], gaps) == Text(t) + Text(u);
  }

  lemma ClashLonger(t: Token, u: Token)
    requires Writable(t) && Writable(u) && Clash(t, u)
    ensures Lex(Text(t) + Text(u)).0 != Some(t)
  {
    var cs := Text(t) + Text(u);
    assert cs[0] == Text(t)[0] && Text(u) != [];
    if t.Number? {
    } else {
    }
  }

}
