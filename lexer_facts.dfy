/**
 * Properties of the tokenizer in module Lexer: what `Lex` gives back for the
 * display text of each token kind, how its spans are laid out, and which
 * tokens it can never produce.
 */
module LexerFacts {
  import opened Wrappers
  import opened Text
  import opened Tokens
  import opened Lexer
  import Span
  import Arena

  // ------------------------------------------------------------ spans

  /** Spans of a lexed input are non-empty, in increasing order, inside the input's bytes, and in its source. */
  lemma LexSpans(s: string, src: Arena.Id<Span.Source>)
    requires Lex(s, src).Some?
    ensures forall k :: 0 <= k < |Lex(s, src).value| ==>
              var sp := Lex(s, src).value[k].1;
              sp.source == src && sp.start < sp.end <= Utf8Len(s)
    ensures forall k :: 0 < k < |Lex(s, src).value| ==> Lex(s, src).value[k - 1].1.end <= Lex(s, src).value[k].1.start
  {
    var ls := Scan(s, 0);
    ScanOrdered(s, 0);
    var r := Lex(s, src).value;
    assert r == Spans(s, ls, src);
    forall k | 0 <= k < |r|
      ensures r[k].1.source == src && r[k].1.start < r[k].1.end <= Utf8Len(s)
    {
      ByteOffsetMonotone(s, ls[k].start, ls[k].end);
      ByteOffsetBound(s, ls[k].end);
    }
    forall k | 0 < k < |r|
      ensures r[k - 1].1.end <= r[k].1.start
    {
      ByteOffsetMonotone(s, ls[k - 1].end, ls[k].start);
    }
  }

  /** The `k`-th lexed token is what `NextToken` reads where the `k`-th token's text starts. */
  lemma LexTokenAt(s: string, src: Arena.Id<Span.Source>, k: nat)
    requires Lex(s, src).Some? && k < |Lex(s, src).value|
    ensures k < |Scan(s, 0)| && Scan(s, 0)[k].start < |s|
    ensures Lex(s, src).value[k].0 == NextToken(s, Scan(s, 0)[k].start).tok
    ensures Lex(s, src).value[k].1.start == ByteOffset(s, Scan(s, 0)[k].start)
  {
    ScanAt(s, 0, k);
  }

  /** The lexer never produces the operators `==`, `and`, `or`, `not`: `assign` and `word` shadow them. */
  lemma NoShadowedOps(s: string, src: Arena.Id<Span.Source>)
    requires Lex(s, src).Some?
    ensures forall k :: 0 <= k < |Lex(s, src).value| ==>
              !(Lex(s, src).value[k].0.Op? && Lex(s, src).value[k].0.op in {Eq, And, Or, Not})
  {
    forall k | 0 <= k < |Lex(s, src).value|
      ensures !(Lex(s, src).value[k].0.Op? && Lex(s, src).value[k].0.op in {Eq, And, Or, Not})
    {
      LexTokenAt(s, src, k);
    }
  }

  /** The empty input, or input of whitespace alone, lexes to no tokens; comments alone fail. */
  lemma PaddingOnly(s: string, src: Arena.Id<Span.Source>)
    requires Skip(s, 0) == |s|
    ensures Lex(s, src) == (if SkipWhitespace(s, 0) == |s| then Some([]) else None)
  {
    ScanEnds(s, 0);
  }

  // ------------------------------------------------------------ single tokens

  /** An input that is exactly one token, starting at its first character, lexes to that token alone. */
  lemma {:induction false} SingleToken(s: string, t: Token, src: Arena.Id<Span.Source>)
    requires 0 < |s| && !IsWhitespace(s[0]) && s[0] != '#'
    requires NextToken(s, 0) == Lexeme(t, |s|)
    ensures Lex(s, src) == Some([(t, Span.Span(0, Utf8Len(s), src))])
  {
    assert Skip(s, 0) == 0;
    assert SkipWhitespace(s, 0) == 0;
    ScanStep(s, 0);
    ScanEnds(s, |s|);
    assert |Scan(s, 0)| == 1;
    assert Scan(s, 0)[0] == Located(t, 0, |s|);
    assert s[..|s|] == s;
    assert s[..0] == [];
    var r := Lex(s, src).value;
    assert |r| == 1;
    assert r == [(t, Span.Span(0, Utf8Len(s), src))];
  }

  /** `s` is ASCII text that `NextToken` reads whole, from its first character, as `t`. */
  predicate LoneToken(s: string, t: Token) {
    0 < |s| && IsAscii(s) && '!' <= s[0] <= '~' && s[0] != '#' && NextToken(s, 0) == Lexeme(t, |s|)
  }

  /** An ASCII input that is exactly one token: its span is its length. */
  lemma AsciiSingleToken(s: string, t: Token, src: Arena.Id<Span.Source>)
    requires LoneToken(s, t)
    ensures Lex(s, src) == Some([(t, Span.Span(0, |s|, src))])
  {
    SingleToken(s, t, src);
    Utf8LenAscii(s);
  }

  /** The word rule reads an identifier-shaped input whole. */
  lemma WordToken0(w: string)
    requires 0 < |w| && IsIdentStart(w[0])
    requires forall k :: 0 <= k < |w| ==> IsIdentContinue(w[k])
    ensures NextToken(w, 0) == Lexeme(WordToken(w), |w|) && IsAscii(w)
  {
    WordRuleWhole(w);
    NextTokenWord(w, 0);
  }

  /** The word rule's token for an identifier-shaped input is the whole input, classified. */
  lemma WordRuleWhole(w: string)
    requires 0 < |w| && IsIdentStart(w[0])
    requires forall k :: 0 <= k < |w| ==> IsIdentContinue(w[k])
    ensures WordRule(w, 0) == Some(Lexeme(WordToken(w), |w|))
  {
    assert IdentEnd(w, 1) == |w|;
    assert w[0..|w|] == w;
  }

  /** An identifier-shaped word lexes to the one token `WordToken` classifies it as. */
  lemma WordRoundTrip(w: string, src: Arena.Id<Span.Source>)
    requires 0 < |w| && IsIdentStart(w[0])
    requires forall k :: 0 <= k < |w| ==> IsIdentContinue(w[k])
    ensures Lex(w, src) == Some([(WordToken(w), Span.Span(0, |w|, src))])
  {
    WordToken0(w);
    AsciiSingleToken(w, WordToken(w), src);
  }

  /** Every keyword's display text lexes back to that keyword. */
  lemma KeywordRoundTrip(kw: Keyword, src: Arena.Id<Span.Source>)
    ensures Lex(KeywordText(kw), src) == Some([(Token.Keyword(kw), Span.Span(0, |KeywordText(kw)|, src))])
  {
    WordRoundTrip(KeywordText(kw), src);
  }

  /** `_` is the wildcard. */
  lemma WildcardExample(src: Arena.Id<Span.Source>)
    ensures Lex("_", src) == Some([(Wildcard, Span.Span(0, 1, src))])
  {
    WordRoundTrip("_", src);
  }

  /** The operator word `and` lexes as an identifier. */
  lemma AndIsIdent(src: Arena.Id<Span.Source>)
    ensures Lex("and", src) == Some([(Ident("and"), Span.Span(0, 3, src))])
  {
    AndWord();
    WordRoundTrip("and", src);
  }

  /** `and` is not in the keyword table. */
  lemma AndWord()
    ensures WordToken("and") == Ident("and")
  {
    assert KeywordNamed("and") == None;
  }

  /** The `sym` rule reads the display text of every symbol but `.` and `!`. */
  lemma SymRuleText(sym: Symbol)
    requires sym !in {Dot, Bang}
    ensures SymRule(SymbolText(sym), 0) == Some(Lexeme(Token.Symbol(sym), |SymbolText(sym)|))
  {
  }

  /** `sym`, or `sym2` for `.` and `!`, reads the display text of every symbol. */
  lemma SymbolToken(sym: Symbol)
    ensures LoneToken(SymbolText(sym), Token.Symbol(sym))
  {
    var s := SymbolText(sym);
    if sym in {Dot, Bang} {
      NextTokenSym2(s, 0);
    } else {
      SymRuleText(sym);
      NextTokenSym(s, 0);
    }
  }

  /** Every symbol's display text lexes back to that symbol. */
  lemma SymbolRoundTrip(sym: Symbol, src: Arena.Id<Span.Source>)
    ensures Lex(SymbolText(sym), src) == Some([(Token.Symbol(sym), Span.Span(0, |SymbolText(sym)|, src))])
  {
    SymbolToken(sym);
    AsciiSingleToken(SymbolText(sym), Token.Symbol(sym), src);
  }

  /** The operator rule reads the display text of every operator the lexer can produce. */
  lemma OpToken(op: Op)
    requires op !in {Eq, And, Or, Not}
    ensures LoneToken(OpText(op), Token.Op(op))
  {
    NextTokenOp(OpText(op), 0);
  }

  /**
   * Every operator the lexer can produce lexes back from its display text;
   * `<` and `>` are these comparison operators, never angle delimiters.
   */
  lemma OpRoundTrip(op: Op, src: Arena.Id<Span.Source>)
    requires op !in {Eq, And, Or, Not}
    ensures Lex(OpText(op), src) == Some([(Token.Op(op), Span.Span(0, |OpText(op)|, src))])
  {
    OpToken(op);
    AsciiSingleToken(OpText(op), Token.Op(op), src);
  }

  /** The assignment rule reads the display text of each compound assignment. */
  lemma AssignToken(op: Op)
    requires op in {Add, Sub, Mul, Div, Mod, Concat}
    ensures LoneToken(OpText(op) + "=", Assign(Some(op)))
  {
    NextTokenAssign(OpText(op) + "=", 0);
  }

  /** Each compound assignment lexes back from its display text. */
  lemma AssignRoundTrip(op: Op, src: Arena.Id<Span.Source>)
    requires op in {Add, Sub, Mul, Div, Mod, Concat}
    ensures var s := OpText(op) + "="; Lex(s, src) == Some([(Assign(Some(op)), Span.Span(0, |s|, src))])
  {
    AssignToken(op);
    AsciiSingleToken(OpText(op) + "=", Assign(Some(op)), src);
  }

  /** A lone `=` is a plain assignment. */
  lemma PlainAssign(src: Arena.Id<Span.Source>)
    ensures Lex("=", src) == Some([(Assign(None), Span.Span(0, 1, src))])
  {
    NextTokenAssign("=", 0);
    AsciiSingleToken("=", Assign(None), src);
  }

  /** Round, square and curly opening brackets lex back to their delimiters. */
  lemma OpenRoundTrip(d: Delim, src: Arena.Id<Span.Source>)
    requires d != Angle
    ensures Lex(OpenText(d), src) == Some([(Open(d), Span.Span(0, 1, src))])
  {
    NextTokenDelim(OpenText(d), 0);
    AsciiSingleToken(OpenText(d), Open(d), src);
  }

  /** Round, square and curly closing brackets lex back to their delimiters. */
  lemma CloseRoundTrip(d: Delim, src: Arena.Id<Span.Source>)
    requires d != Angle
    ensures Lex(CloseText(d), src) == Some([(Close(d), Span.Span(0, 1, src))])
  {
    NextTokenDelim(CloseText(d), 0);
    AsciiSingleToken(CloseText(d), Close(d), src);
  }

  /** A run of digits followed by a non-digit (or nothing) ends where the digits do. */
  lemma DigitsEndOfRun(d: string, rest: string, i: nat)
    requires AllDigits(d) && i <= |d|
    requires rest == [] || !IsDigit(rest[0])
    ensures DigitsEnd(d + rest, i) == |d|
  {
    var s := d + rest;
    assert forall m :: 0 <= m < |d| ==> s[m] == d[m];
    assert |d| < |s| ==> s[|d|] == rest[0];
  }

  /** The integer rule reads the whole decimal text of `n`, and its optional `i` suffix. */
  lemma DecimalToken(n: nat, suffix: bool)
    ensures var s := DecimalText(n) + (if suffix then "i" else "");
      NextToken(s, 0) == Lexeme(if n <= I64Max then Int(n) else Error(DecimalText(n)), |s|)
  {
    var d := DecimalText(n);
    var rest := if suffix then "i" else "";
    var s := d + rest;
    DigitsEndOfRun(d, rest, 1);
    assert s[0..|d|] == d;
    assert IntDigits(s, 0) == Some(|d|);
    DigitsValueOfDecimalText(n);
    assert FloatRule(s, 0).None?;
    NextTokenNumber(s, 0);
  }

  /**
   * The decimal text of a natural number, with or without the `i` suffix,
   * lexes to one integer token of that value when it fits in `i64`, and to an
   * error carrying the digits when it does not.
   */
  lemma IntRoundTrip(n: nat, suffix: bool, src: Arena.Id<Span.Source>)
    ensures var s := DecimalText(n) + (if suffix then "i" else "");
      Lex(s, src) == Some([(if n <= I64Max then Int(n) else Error(DecimalText(n)), Span.Span(0, |s|, src))])
  {
    var s := DecimalText(n) + (if suffix then "i" else "");
    DecimalToken(n, suffix);
    assert IsAscii(s);
    AsciiSingleToken(s, if n <= I64Max then Int(n) else Error(DecimalText(n)), src);
  }

  // ------------------------------------------------------------ strings and chars

  /** The escape letter that writes `c` inside a literal; `"` and `\` always have one. */
  function EscapeLetter(c: char): (r: Option<char>)
    ensures r.Some? ==> EscapeChar(r.value) == Some(c)
    ensures c == '"' || c == '\\' ==> r.Some?
  {
    if c == '\\' then Some('\\')
    else if c == '"' then Some('"')
    else if c == '\U{08}' then Some('b')
    else if c == '\r' then Some('r')
    else if c == '\n' then Some('n')
    else if c == '\t' then Some('t')
    else None
  }

  /** One character as written inside a string literal. */
  function EscapedChar(c: char): (e: string)
    ensures EscapeLetter(c).None? ==> e == [c]
    ensures EscapeLetter(c).Some? ==> e == ['\\', EscapeLetter(c).value]
  {
    match EscapeLetter(c)
    case Some(l) => ['\\', l]
    case None => [c]
  }

  /** String content written with escapes, as the `string` rule reads it. */
  function Escaped(x: string): string
  {
    if x == [] then [] else EscapedChar(x[0]) + Escaped(x[1..])
  }

  /** A string literal for content `x`. */
  function Quote(x: string): string
  {
    "\"" + Escaped(x) + "\""
  }

  /** `s` holds the text `w` from position `j` on. */
  predicate HoldsAt(s: string, j: nat, w: string) {
    j + |w| <= |s| && forall k :: 0 <= k < |w| ==> s[j + k] == w[k]
  }

  /** One written character at `j` of a `string` body: its decoded character is put in front of the rest. */
  lemma StringBodyUnit(s: string, j: nat, c: char, t: string, e: nat)
    requires j + |EscapedChar(c)| < |s| && HoldsAt(s, j, EscapedChar(c))
    requires StringBody(s, j + |EscapedChar(c)|) == Some((t, e))
    ensures StringBody(s, j) == Some(([c] + t, e))
  {
    var h := EscapedChar(c);
    assert s[j + 0] == h[0];
    if EscapeLetter(c).Some? {
      assert s[j + 1] == h[1];
      assert Escape(s, j) == Some((c, j + 2));
    }
  }

  /** One content character in front of a decoded body: the body of its escaped form. */
  lemma StringBodyCons(s: string, j: nat, x: string, e: nat)
    requires 0 < |x| && j + |EscapedChar(x[0])| < |s| && HoldsAt(s, j, EscapedChar(x[0]))
    requires StringBody(s, j + |EscapedChar(x[0])|) == Some((x[1..], e))
    ensures StringBody(s, j) == Some((x, e))
  {
    StringBodyUnit(s, j, x[0], x[1..], e);
    assert [x[0]] + x[1..] == x;
  }

  /** Holding `h + t` is holding `h`, then `t`. */
  lemma HoldsSplit(s: string, j: nat, h: string, t: string)
    requires HoldsAt(s, j, h + t)
    ensures HoldsAt(s, j, h) && HoldsAt(s, j + |h|, t)
  {
    forall k | 0 <= k < |h| ensures s[j + k] == h[k] {
      assert (h + t)[k] == h[k];
    }
    forall k | 0 <= k < |t| ensures s[j + |h| + k] == t[k] {
      assert s[j + (|h| + k)] == (h + t)[|h| + k];
    }
  }

  /** Holding an escaped text is holding its first character's escape, then the rest escaped. */
  lemma EscapedParts(x: string, s: string, j: nat)
    requires 0 < |x| && HoldsAt(s, j, Escaped(x))
    ensures |EscapedChar(x[0])| + |Escaped(x[1..])| == |Escaped(x)|
    ensures HoldsAt(s, j, EscapedChar(x[0])) && HoldsAt(s, j + |EscapedChar(x[0])|, Escaped(x[1..]))
  {
    var h, t := EscapedChar(x[0]), Escaped(x[1..]);
    assert Escaped(x) == h + t;
    HoldsSplit(s, j, h, t);
  }

  /** The `string` body reads escaped content and its closing quote back to the content. */
  lemma {:induction false} StringBodyEscaped(x: string, s: string, j: nat)
    requires HoldsAt(s, j, Escaped(x)) && j + |Escaped(x)| < |s| && s[j + |Escaped(x)|] == '"'
    ensures StringBody(s, j) == Some((x, j + |Escaped(x)| + 1))
    decreases |x|
  {
    if x == [] {
      assert s[j] == '"';
    } else {
      var j2 := j + |EscapedChar(x[0])|;
      EscapedParts(x, s, j);
      StringBodyEscaped(x[1..], s, j2);
      StringBodyCons(s, j, x, j + |Escaped(x)| + 1);
    }
  }

  /** The `string` rule reads a quoted literal back to its content. */
  lemma QuoteToken(x: string)
    ensures NextToken(Quote(x), 0) == Lexeme(String(x), |Quote(x)|)
  {
    var s := Quote(x);
    var e := Escaped(x);
    forall k | 0 <= k < |e| ensures s[1 + k] == e[k] {
    }
    assert s[1 + |e|] == '"';
    StringBodyEscaped(x, s, 1);
    NextTokenString(s, 0);
  }

  /** At a `"` followed by escaped content and a closing `"`, the token is the String of that content. */
  lemma StringToken(x: string, s: string, i: nat)
    requires i < |s| && s[i] == '"' && HoldsAt(s, i + 1, Escaped(x))
    requires i + 1 + |Escaped(x)| < |s| && s[i + 1 + |Escaped(x)|] == '"'
    ensures NextToken(s, i) == Lexeme(String(x), i + 2 + |Escaped(x)|)
  {
    StringBodyEscaped(x, s, i + 1);
    NextTokenString(s, i);
  }

  /** A string literal with escapes lexes back to its content. */
  lemma StringRoundTrip(x: string, src: Arena.Id<Span.Source>)
    ensures Lex(Quote(x), src) == Some([(String(x), Span.Span(0, Utf8Len(Quote(x)), src))])
  {
    QuoteToken(x);
    SingleToken(Quote(x), String(x), src);
  }

  /** Content that needs no escapes is written as itself. */
  lemma {:induction false} EscapedPlain(x: string)
    requires forall k :: 0 <= k < |x| ==> EscapeLetter(x[k]).None?
    ensures Escaped(x) == x
    decreases |x|
  {
    if x != [] {
      EscapedPlain(x[1..]);
      assert [x[0]] + x[1..] == x;
    }
  }

  /**
   * `Display` does not re-escape string content, so a string token lexes
   * back from its display text when its content needs no escapes.
   */
  lemma StringDisplayRoundTrip(x: string, src: Arena.Id<Span.Source>)
    requires forall k :: 0 <= k < |x| ==> EscapeLetter(x[k]).None?
    ensures Lex(TokenText(String(x)), src) == Some([(String(x), Span.Span(0, Utf8Len(TokenText(String(x))), src))])
  {
    EscapedPlain(x);
    assert TokenText(String(x)) == Quote(x);
    StringRoundTrip(x, src);
  }

  /** A `"` whose literal does not close, or holds a bad escape, is an error token of the quote alone. */
  lemma StringFailure(s: string, i: nat)
    requires i < |s| && s[i] == '"' && StringBody(s, i + 1).None?
    ensures NextToken(s, i) == Lexeme(Error("\""), i + 1)
  {
    NextTokenString(s, i);
  }

  /** A character token lexes back from its display text, unless it is `\` or `'`. */
  lemma CharRoundTrip(c: char, src: Arena.Id<Span.Source>)
    requires c != '\\' && c != '\''
    ensures Lex(TokenText(Char(c)), src) == Some([(Char(c), Span.Span(0, Utf8Width(c) + 2, src))])
  {
    var s := TokenText(Char(c));
    assert s == ['\'', c, '\''];
    NextTokenChar(s, 0);
    SingleToken(s, Char(c), src);
    assert s[..2] == ['\'', c] && s[..2][..1] == ['\''] && s[..2][..1][..0] == [];
    assert Utf8Len(s) == Utf8Len(['\'', c]) + 1 == Utf8Len(['\'']) + Utf8Width(c) + 1;
  }

  /** An escaped character literal lexes to the character its escape decodes to. */
  lemma CharEscapeRoundTrip(c: char, src: Arena.Id<Span.Source>)
    requires EscapeLetter(c).Some?
    ensures Lex(['\'', '\\', EscapeLetter(c).value, '\''], src) == Some([(Char(c), Span.Span(0, 4, src))])
  {
    var s := ['\'', '\\', EscapeLetter(c).value, '\''];
    NextTokenChar(s, 0);
    assert IsAscii(s);
    AsciiSingleToken(s, Char(c), src);
  }

  // ------------------------------------------------------------ errors

  /** The characters some rule other than `word`, `int` and `float` can start with. */
  const RuleStarts: set<char> := {
    '"', '\'', ':', '-', '<', '=', '>', '?', '|', '\\', ',',
    '+', '*', '/', '%', '.', '!', '(', ')', '[', ']', '{', '}', ' '
  }

  /** A character no rule starts with becomes an error token of that one character. */
  lemma UnrecognisedChar(s: string, i: nat)
    requires i < |s| && !IsIdentStart(s[i]) && !IsDigit(s[i]) && s[i] !in RuleStarts
    ensures NextToken(s, i) == Lexeme(Error([s[i]]), i + 1)
  {
  }

  // ------------------------------------------------------------ examples

  /** One step of the token loop, stated with the token it reads. */
  lemma ScanCons(s: string, i: nat, p: nat, t: Token, e: nat)
    requires i <= |s| && Skip(s, i) == p < |s| && NextToken(s, p) == Lexeme(t, e)
    ensures Scan(s, i) == [Located(t, p, e)] + Scan(s, e)
  {
  }

  /** The end of the token loop. */
  lemma ScanNil(s: string, i: nat)
    requires i <= |s| && Skip(s, i) == |s|
    ensures Scan(s, i) == []
  {
  }

  /** In ASCII input, byte offsets are character positions. */
  lemma AsciiByteOffset(s: string, j: nat)
    requires IsAscii(s) && j <= |s|
    ensures ByteOffset(s, j) == j
  {
    assert IsAscii(s[..j]);
    Utf8LenAscii(s[..j]);
  }

  /** In ASCII input, every byte offset is the character position. */
  lemma AsciiByteOffsets(s: string)
    requires IsAscii(s)
    ensures forall j :: 0 <= j <= |s| ==> ByteOffset(s, j) == j
  {
    forall j | 0 <= j <= |s|
      ensures ByteOffset(s, j) == j
    {
      AsciiByteOffset(s, j);
    }
  }

  /** Padding stops at a character that is neither whitespace nor `#`, and at the end. */
  lemma SkipStops(s: string, i: nat)
    requires i <= |s| && (i == |s| || (!IsWhitespace(s[i]) && s[i] != '#'))
    ensures Skip(s, i) == i
  {
  }

  /** In ASCII input, the spans of two located tokens are their character positions. */
  lemma AsciiSpansTwo(s: string, src: Arena.Id<Span.Source>, a: Located, b: Located)
    requires IsAscii(s) && a.start <= a.end <= |s| && b.start <= b.end <= |s|
    ensures Spans(s, [a, b], src) == [(a.tok, Span.Span(a.start, a.end, src)), (b.tok, Span.Span(b.start, b.end, src))]
  {
    AsciiByteOffset(s, a.start);
    AsciiByteOffset(s, a.end);
    AsciiByteOffset(s, b.start);
    AsciiByteOffset(s, b.end);
  }

  /** ASCII input holding two tokens, each after its padding, and then only padding. */
  lemma LexTwo(s: string, src: Arena.Id<Span.Source>, a: Located, b: Located)
    requires IsAscii(s)
    requires a.start == Skip(s, 0) < |s| && NextToken(s, a.start) == Lexeme(a.tok, a.end)
    requires b.start == Skip(s, a.end) < |s| && NextToken(s, b.start) == Lexeme(b.tok, b.end)
    requires Skip(s, b.end) == |s|
    ensures Lex(s, src) == Some([(a.tok, Span.Span(a.start, a.end, src)), (b.tok, Span.Span(b.start, b.end, src))])
  {
    ScanCons(s, 0, a.start, a.tok, a.end);
    ScanCons(s, a.end, b.start, b.tok, b.end);
    ScanNil(s, b.end);
    assert Scan(s, 0) == [a, b];
    AsciiSpansTwo(s, src, a, b);
  }

  /** A `=` not followed by `>` is a plain assignment of its own. */
  lemma EqualsToken(s: string, i: nat)
    requires i < |s| && s[i] == '=' && (i + 1 == |s| || s[i + 1] != '>')
    ensures NextToken(s, i) == Lexeme(Assign(None), i + 1)
  {
    assert SymRule(s, i).None?;
    NextTokenAssign(s, i);
  }

  /** `==` is two plain assignments, never the equality operator. */
  lemma DoubleEquals(src: Arena.Id<Span.Source>)
    ensures Lex("==", src) == Some([(Assign(None), Span.Span(0, 1, src)), (Assign(None), Span.Span(1, 2, src))])
  {
    var s := "==";
    EqualsToken(s, 0);
    EqualsToken(s, 1);
    SkipStops(s, 0);
    SkipStops(s, 1);
    SkipStops(s, 2);
    LexTwo(s, src, Located(Assign(None), 0, 1), Located(Assign(None), 1, 2));
  }

  /** The two tokens of `0.0d` for a digit `d`. */
  lemma LeadingZeroFractionTokens(d: char)
    requires IsDigit(d)
    ensures NextToken("0.0" + [d], 0) == Lexeme(Float("0", "0"), 3)
    ensures NextToken("0.0" + [d], 3) == Lexeme(Int(DigitValue(d)), 4)
  {
    var s := "0.0" + [d];
    assert s[0] == '0' && s[1] == '.' && s[2] == '0' && s[3] == d;
    assert s[0..1] == "0" && s[2..3] == "0" && s[3..4] == [d];
    assert IntDigits(s, 0) == Some(1) && IntDigits(s, 2) == Some(3);
    assert FloatRule(s, 0) == Some(Lexeme(Float("0", "0"), 3));
    NextTokenNumber(s, 0);
    assert IntDigits(s, 3) == Some(4);
    assert FloatRule(s, 3).None?;
    assert [d][..0] == [];
    assert DigitsValue([d]) == DigitValue(d);
    NextTokenNumber(s, 3);
  }

  /**
   * `0.0d` is the float `0.0` followed by the integer `d`: `text::int` reads
   * a lone `0` after the dot, so `0.05` is `0.0` then `5`.
   */
  lemma LeadingZeroFraction(d: char, src: Arena.Id<Span.Source>)
    requires IsDigit(d)
    ensures Lex("0.0" + [d], src) == Some([(Float("0", "0"), Span.Span(0, 3, src)), (Int(DigitValue(d)), Span.Span(3, 4, src))])
  {
    var s := "0.0" + [d];
    LeadingZeroFractionTokens(d);
    assert IsAscii(s);
    SkipStops(s, 0);
    SkipStops(s, 3);
    SkipStops(s, 4);
    LexTwo(s, src, Located(Float("0", "0"), 0, 3), Located(Int(DigitValue(d)), 3, 4));
  }

  /**
   * A number followed by a dot and no digit is an integer: the float rule
   * fails, so `1.` is `1` then `.`, and `1..2` is `1`, `..`, `2`.
   */
  lemma IntBeforeDot(s: string, i: nat)
    requires i < |s| && IsDigit(s[i])
    requires var j := IntDigits(s, i).value; j < |s| && s[j] == '.' && (j + 1 == |s| || !IsDigit(s[j + 1]))
    ensures NextToken(s, i) == IntRule(s, i).value
  {
    NextTokenNumber(s, i);
  }

  /**
   * A lone digit not followed by another digit or an `i` is the integer it
   * spells, also before a dot that no digit follows.
   */
  lemma DigitToken(s: string, i: nat)
    requires i < |s| && IsDigit(s[i])
    requires i + 1 < |s| ==> !IsDigit(s[i + 1]) && s[i + 1] != 'i'
    requires i + 1 < |s| && s[i + 1] == '.' ==> i + 2 == |s| || !IsDigit(s[i + 2])
    ensures NextToken(s, i) == Lexeme(Int(DigitValue(s[i])), i + 1)
  {
    assert IntDigits(s, i) == Some(i + 1);
    assert s[i..i + 1] == [s[i]] && [s[i]][..0] == [];
    assert DigitsValue([s[i]]) == DigitValue(s[i]);
    assert FloatRule(s, i).None?;
    NextTokenNumber(s, i);
  }

  /** `..` with no `=` after it is the concatenation operator. */
  lemma ConcatToken(s: string, i: nat)
    requires i + 1 < |s| && s[i] == '.' && s[i + 1] == '.' && (i + 2 == |s| || s[i + 2] != '=')
    ensures NextToken(s, i) == Lexeme(Op(Concat), i + 2)
  {
    assert SymRule(s, i).None? && AssignRule(s, i).None?;
    assert OpRule(s, i) == Some(Lexeme(Op(Concat), i + 2));
    NextTokenOp(s, i);
  }

  /** `+=` is the compound assignment with `+`. */
  lemma AddAssignToken(s: string, i: nat)
    requires i + 1 < |s| && s[i] == '+' && s[i + 1] == '='
    ensures NextToken(s, i) == Lexeme(Assign(Some(Add)), i + 2)
  {
    assert SymRule(s, i).None?;
    assert AssignRule(s, i) == Some(Lexeme(Assign(Some(Add)), i + 2));
    NextTokenAssign(s, i);
  }

  /** A one-letter word is the identifier of that letter: no keyword has one letter. */
  lemma LetterToken(s: string, i: nat)
    requires i < |s| && 'a' <= s[i] <= 'z' && (i + 1 == |s| || !IsIdentContinue(s[i + 1]))
    ensures NextToken(s, i) == Lexeme(Ident([s[i]]), i + 1)
  {
    assert IdentEnd(s, i + 1) == i + 1 && s[i..i + 1] == [s[i]];
    assert WordToken([s[i]]) == Ident([s[i]]) by {
      forall k: Keyword ensures [s[i]] != KeywordText(k) {
      }
    }
    NextTokenWord(s, i);
  }

  /** A `.` that does not start `..` is the dot symbol: `sym2` comes after `op`. */
  lemma DotToken(s: string, i: nat)
    requires i < |s| && s[i] == '.' && (i + 1 == |s| || s[i + 1] != '.')
    ensures NextToken(s, i) == Lexeme(Token.Symbol(Dot), i + 1)
  {
    assert SymRule(s, i).None? && OpRule(s, i).None?;
    assert Sym2Rule(s, i) == Some(Lexeme(Token.Symbol(Dot), i + 1));
    NextTokenSym2(s, i);
  }

  /** Input of nothing but a comment fails to lex; blank input is no tokens. */
  lemma CommentOnly(src: Arena.Id<Span.Source>)
    ensures Lex("# note", src).None?
    ensures Lex(" \n", src) == Some([])
  {
    assert LineEnd("# note", 1) == 6;
    assert Skip("# note", 0) == 6;
    assert SkipWhitespace("# note", 0) == 0;
    assert Skip(" \n", 0) == 2;
    PaddingOnly(" \n", src);
  }
}
