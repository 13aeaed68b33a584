/**
 * Properties of the older front end's token atoms (src/lexer.rs) against
 * the `Display` rendering of src/token.rs, and of flattening.
 */
module LegacyFacts {
  import opened Wrappers
  import opened Text
  import opened LegacyTokens
  import opened LegacyLexer
  import Span

  /** A keyword's spelling is one whole identifier. */
  lemma KeywordWordEnd(k: Keyword)
    ensures WordEnd(KeywordText(k), 0) == |KeywordText(k)|
  {
  }

  /** Every keyword's `Display` lexes back as that keyword, consuming the whole spelling. */
  lemma KeywordRoundTrip(k: Keyword)
    ensures TokenAt(KeywordText(k), 0) == Some(Lexeme(Keyword(k), |KeywordText(k)|))
  {
    KeywordWordEnd(k);
    KeywordNamedIff(KeywordText(k), k);
    assert KeywordText(k)[0..|KeywordText(k)|] == KeywordText(k);
  }

  /** `kw()` needs the whole identifier: a keyword with more letters after it is an identifier. */
  lemma KeywordPrefixIsIdent()
    ensures TokenAt("iffy", 0) == Some(Lexeme(Ident("iffy"), 4))
    ensures TokenAt("if x", 0) == Some(Lexeme(Keyword(If), 2))
  {
    assert "iffy"[0..4] == "iffy";
    assert KeywordNamed("iffy").None? by {
      forall k: Keyword ensures "iffy" != KeywordText(k) {
      }
    }
    assert WordEnd("if x", 0) == 2;
    assert "if x"[0..2] == "if";
    KeywordNamedIff("if", If);
  }

  /** `true` and `false` lex as booleans, ahead of `ident`. */
  lemma BoolRoundTrip(b: bool)
    ensures var w := if b then "true" else "false"; TokenAt(w, 0) == Some(Lexeme(Bool(b), |w|))
  {
    var w := if b then "true" else "false";
    assert WordEnd(w, 0) == |w|;
    assert w[0..|w|] == w;
    assert KeywordNamed(w).None? by {
      forall k: Keyword ensures w != KeywordText(k) {
      }
    }
  }

  /** A symbol's spelling never starts a keyword, a string or an identifier. */
  lemma NotWordOrString(s: string)
    requires 0 < |s| && !IsIdentStart(s[0]) && s[0] != '"'
    ensures TokenAt(s, 0) == SymAt(s, 0)
  {
  }

  /** `::` precedes `:`, `->` precedes `-`, `=>` precedes `=`. */
  lemma LongestPunctuationFirst()
    ensures SymAt("::", 0) == Some(Lexeme(Symbol(DoubleColon), 2))
    ensures SymAt("->", 0) == Some(Lexeme(Symbol(Arrow), 2))
    ensures SymAt("=>", 0) == Some(Lexeme(Symbol(FatArrow), 2))
  {
    FirstPrefixIs("::", 0, PunctuationTable, 0);
    forall k | 0 <= k < 4 ensures !StartsWith("->", 0, PunctuationTable[k].0) {
      HeadMismatch("->", 0, PunctuationTable[k].0);
    }
    FirstPrefixIs("->", 0, PunctuationTable, 4);
    FirstPrefixIs("=>", 0, PunctuationTable, 5);
    PunctuationSpellings();
  }

  /** Because `.` is tried before `..`, the range operator lexes as a dot, one character at a time. */
  lemma ConcatIsDot()
    ensures TokenAt("..", 0) == Some(Lexeme(Symbol(Dot), 1))
    ensures TokenAt("..=", 0) == Some(Lexeme(Symbol(Dot), 1))
  {
    NotWordOrString("..");
    NotWordOrString("..=");
    FirstPrefixIs("..", 0, PunctuationTable, 3);
    FirstPrefixIs("..=", 0, PunctuationTable, 3);
  }

  /** No punctuation matches `&&`, and the first operator that does is `&`. */
  lemma AndMatchesBitAnd()
    ensures FirstPrefixFrom("&&", 0, PunctuationTable, 0).None?
    ensures FirstPrefixFrom("&&", 0, OperatorTable, 0) == Some(7)
  {
    var r := FirstPrefixFrom("&&", 0, PunctuationTable, 0);
    if r.Some? {
      HeadMismatch("&&", 0, PunctuationTable[r.value].0);
    }
    forall k | 0 <= k < 7 ensures !StartsWith("&&", 0, OperatorTable[k].0) {
      HeadMismatch("&&", 0, OperatorTable[k].0);
    }
    FirstPrefixIs("&&", 0, OperatorTable, 7);
  }

  /** `&&` is two `&` tokens. */
  lemma LogicalAndIsBitwise()
    ensures TokenAt("&&", 0) == Some(Lexeme(Symbol(BitAnd), 1))
  {
    NotWordOrString("&&");
    AndMatchesBitAnd();
  }

  /** A quote is not a symbol start. */
  lemma QuoteIsNotSymbol(s: string)
    requires 0 < |s| && s[0] == '"'
    ensures SymAt(s, 0).None?
  {
  }

  /** In a quoted text without `"`, the closing quote is the first one after the opening quote. */
  lemma ClosingQuote(x: string)
    requires forall m :: 0 <= m < |x| ==> x[m] != '"'
    ensures QuoteFrom("\"" + x + "\"", 1) == Some(|x| + 1)
  {
    var s := "\"" + x + "\"";
    var q := QuoteFrom(s, 1);
    assert s[|x| + 1] == '"';
  }

  /** Any text without `"`, quoted, lexes as one string token holding exactly that text. */
  lemma StringRoundTrip(x: string)
    requires forall m :: 0 <= m < |x| ==> x[m] != '"'
    ensures var s := "\"" + x + "\""; TokenAt(s, 0) == Some(Lexeme(Str(x), |s|))
  {
    var s := "\"" + x + "\"";
    QuoteIsNotSymbol(s);
    ClosingQuote(x);
    assert s[1..|x| + 1] == x;
  }

  /** The string rule does not look for escapes: a backslash before the quote does not protect it. */
  lemma NoEscapes()
    ensures TokenAt("\"a\\\"b\"", 0) == Some(Lexeme(Str("a\\"), 4))
  {
    var s := "\"a\\\"b\"";
    QuoteIsNotSymbol(s);
    assert QuoteFrom(s, 1) == Some(3);
    assert s[1..3] == "a\\";
  }

  // ---------------------------------------------------------- flattening

  /** Flattening a leaf yields exactly the leaf. */
  lemma FlatLeaf(t: Token, sp: Span.SimpleSpan)
    ensures Flat((Leaf(t), sp)) == [(t, sp)]
  {
  }

  /** Delimiter markers in a token list are zero-width. */
  predicate MarkersZeroWidth(ts: seq<(Token, Span.SimpleSpan)>) {
    forall k :: 0 <= k < |ts| && (ts[k].0.Open? || ts[k].0.Close?) ==> ts[k].1.start == ts[k].1.end
  }

  /** Zero-width markers survive concatenation. */
  lemma ZeroWidthConcat(a: seq<(Token, Span.SimpleSpan)>, b: seq<(Token, Span.SimpleSpan)>)
    requires MarkersZeroWidth(a) && MarkersZeroWidth(b)
    ensures MarkersZeroWidth(a + b)
  {
    forall k | 0 <= k < |a + b| && ((a + b)[k].0.Open? || (a + b)[k].0.Close?)
      ensures (a + b)[k].1.start == (a + b)[k].1.end
    {
      if k >= |a| {
        assert (a + b)[k] == b[k - |a|];
      }
    }
  }

  /** Every `Open` and `Close` that flattening a lexed tree produces is zero-width. */
  lemma {:induction false} FlatZeroWidth(p: (TokenTree, Span.SimpleSpan))
    requires PlainLeaves(p)
    ensures MarkersZeroWidth(Flat(p))
  {
    match p.0
    case Leaf(t) =>
    case Tree(d, cs) =>
      var last := if cs == [] then p.1.end else cs[|cs| - 1].1.end;
      FlatAllZeroWidth(cs);
      ZeroWidthConcat([(Open(d), Span.SimpleSpan(p.1.start, p.1.start))], FlatAll(cs));
      ZeroWidthConcat([(Open(d), Span.SimpleSpan(p.1.start, p.1.start))] + FlatAll(cs), [(Close(d), Span.SimpleSpan(last, last))]);
  }

  /** The same for a sequence of trees. */
  lemma {:induction false} FlatAllZeroWidth(cs: seq<(TokenTree, Span.SimpleSpan)>)
    requires forall k :: 0 <= k < |cs| ==> PlainLeaves(cs[k])
    ensures MarkersZeroWidth(FlatAll(cs))
  {
    if cs != [] {
      FlatAllZeroWidth(cs[..|cs| - 1]);
      FlatZeroWidth(cs[|cs| - 1]);
      ZeroWidthConcat(FlatAll(cs[..|cs| - 1]), Flat(cs[|cs| - 1]));
    }
  }

  /** A tree of lexed tokens: any token `TokenAt` produces is a plain leaf. */
  lemma LexedLeafIsPlain(s: string, i: nat, sp: Span.SimpleSpan)
    requires i <= |s| && TokenAt(s, i).Some?
    ensures PlainLeaves((Leaf(TokenAt(s, i).value.tok), sp))
  {
  }

  /** An empty tree flattens to its two markers: `Open` at its start and `Close` at its end. */
  lemma FlatEmptyTree(d: Delim, sp: Span.SimpleSpan)
    ensures Flat((Tree(d, []), sp)) == [(Open(d), Span.SimpleSpan(sp.start, sp.start)), (Close(d), Span.SimpleSpan(sp.end, sp.end))]
  {
  }
}
