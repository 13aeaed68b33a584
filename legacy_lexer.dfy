/**
 * The token atoms of the older front end, src/lexer.rs, and the flattening
 * of a token tree into a token list with zero-width delimiter markers.
 *
 * Each chumsky atom is a function from an input position to an optional
 * `Lexeme`; `choice`/`or` is ordered choice. The numeric atoms and the
 * indentation-driven `lexer()` are not part of this model, so `TokenAt` is
 * the `token()` choice up to and including `ident`.
 */
module LegacyLexer {
  import opened Wrappers
  import opened Text
  import opened LegacyTokens
  import Span

  /** A matched token and the position just after its text. */
  datatype Lexeme = Lexeme(tok: Token, end: nat)

  /** A rule's match, when there is one, consumes at least one character of `s` starting at `i`. */
  predicate Advances(s: string, i: nat, r: Option<Lexeme>) {
    r.Some? ==> i < r.value.end <= |s|
  }

  // ------------------------------------------------------------- tables

  /** Index of the first entry, from `k` on, whose spelling is `w`. */
  function FindFrom<V>(w: string, table: seq<(string, V)>, k: nat): (r: Option<nat>)
    requires k <= |table|
    ensures r.Some? ==> k <= r.value < |table| && table[r.value].0 == w
    ensures forall m :: k <= m < |table| && (r.None? || m < r.value) ==> table[m].0 != w
    decreases |table| - k
  {
    if k == |table| then None
    else if table[k].0 == w then Some(k)
    else FindFrom(w, table, k + 1)
  }

  /** Index of the first entry, from `k` on, whose spelling occurs in `s` at `i`: `choice` over `just`s. */
  function FirstPrefixFrom<V>(s: string, i: nat, table: seq<(string, V)>, k: nat): (r: Option<nat>)
    requires k <= |table|
    ensures r.Some? ==> k <= r.value < |table| && StartsWith(s, i, table[r.value].0)
    ensures forall m :: k <= m < |table| && (r.None? || m < r.value) ==> !StartsWith(s, i, table[m].0)
    decreases |table| - k
  {
    if k == |table| then None
    else if StartsWith(s, i, table[k].0) then Some(k)
    else FirstPrefixFrom(s, i, table, k + 1)
  }

  /** The first matching entry is `m` when `m` matches and no entry before it does. */
  lemma FirstPrefixIs<V>(s: string, i: nat, table: seq<(string, V)>, m: nat)
    requires m < |table| && StartsWith(s, i, table[m].0)
    requires forall k :: 0 <= k < m ==> !StartsWith(s, i, table[k].0)
    ensures FirstPrefixFrom(s, i, table, 0) == Some(m)
  {
  }

  /** A spelling whose first character differs from the input's does not match. */
  lemma HeadMismatch(s: string, i: nat, lit: string)
    requires 0 < |lit| && (i >= |s| || s[i] != lit[0])
    ensures !StartsWith(s, i, lit)
  {
  }

  // ----------------------------------------------------------- keywords

  /** The `kw()` alternatives in the order they are tried. */
  const KeywordTable: seq<(string, Keyword)> := [
    ("if", If), ("else", Else), ("while", While), ("for", For), ("loop", Loop),
    ("in", In), ("break", Break), ("continue", Continue), ("return", Return),
    ("global", Global), ("let", Let), ("import", Import), ("pub", Pub),
    ("struct", Struct), ("trait", Trait), ("impl", Impl), ("fn", Fn)
  ]

  /** The keyword `kw()` accepts for the whole identifier `w`, if any. */
  function KeywordNamed(w: string): (r: Option<Keyword>)
    ensures r.Some? ==> KeywordText(r.value) == w
  {
    KeywordTableSpellings();
    match FindFrom(w, KeywordTable, 0)
    case Some(m) => Some(KeywordTable[m].1)
    case None => None
  }

  /** Every table row spells its keyword as `Display` does. */
  lemma KeywordTableSpellings()
    ensures forall m :: 0 <= m < |KeywordTable| ==> KeywordText(KeywordTable[m].1) == KeywordTable[m].0
  {
  }

  /** Every keyword has a row in the table. */
  lemma KeywordTableComplete(k: Keyword)
    ensures (KeywordText(k), k) in KeywordTable
  {
  }

  /** `kw()` names exactly the `Display` spellings of the 17 keywords. */
  lemma KeywordNamedIff(w: string, k: Keyword)
    ensures KeywordNamed(w) == Some(k) <==> w == KeywordText(k)
  {
    if w == KeywordText(k) {
      KeywordTableComplete(k);
      var m :| 0 <= m < |KeywordTable| && KeywordTable[m] == (KeywordText(k), k);
      var r := FindFrom(w, KeywordTable, 0);
      assert r.Some?;
      KeywordTableSpellings();
      KeywordTextInjective(KeywordTable[r.value].1, k);
    }
  }

  // ------------------------------------------------------------- symbols

  /** The outer `sym` alternatives tried before the operators, in order. */
  const PunctuationTable: seq<(string, Symbol)> := [
    ("::", DoubleColon), (":", Colon), (",", Comma), (".", Dot), ("->", Arrow), ("=>", FatArrow)
  ]

  /**
   * The inner operator alternatives in order, each with the pair its
   * `select!` chooses from: the symbol with a trailing `=`, and the one without.
   */
  const OperatorTable: seq<(string, (Symbol, Symbol))> := [
    ("+", (PlusEq, Plus)), ("-", (MinusEq, Minus)), ("*", (TimesEq, Times)),
    ("/", (DivideEq, Divide)), ("%", (ModuloEq, Modulo)), (">>", (RShiftEq, RShift)),
    ("<<", (LShiftEq, LShift)), ("&", (BitAndEq, BitAnd)), ("|", (BitOrEq, BitOr)),
    ("^", (XorEq, Xor)), (">", (Geq, Gt)), ("<", (Leq, Lt)), ("!", (Neq, Bang)),
    ("=", (Eq, Assign)), ("..", (ConcatEq, Concat)), ("?", (InitAssign, Optional))
  ]

  /** `select!(a, b)`: `a` when the `=` was present, `b` otherwise. */
  function Select(pair: (Symbol, Symbol), eq: bool): (r: Symbol)
    ensures eq ==> r == pair.0
    ensures !eq ==> r == pair.1
  {
    if eq then pair.0 else pair.1
  }

  /** Every punctuation row spells its symbol as `Display` does. */
  lemma PunctuationSpellings()
    ensures forall m :: 0 <= m < |PunctuationTable| ==> SymbolText(PunctuationTable[m].1) == PunctuationTable[m].0
  {
  }

  /** Every operator row spells its plain symbol as `Display` does. */
  lemma OperatorSpellings()
    ensures forall m :: 0 <= m < |OperatorTable| ==> SymbolText(OperatorTable[m].1.1) == OperatorTable[m].0
  {
  }

  /** The first eight operator rows: the first symbol displays as the spelling followed by `=`. */
  lemma OperatorCompoundSpellingsLow()
    ensures forall m :: 0 <= m < 8 ==> SymbolText(OperatorTable[m].1.0) == OperatorTable[m].0 + "="
  {
  }

  /** The last eight operator rows: the first symbol displays as the spelling followed by `=`. */
  lemma OperatorCompoundSpellingsHigh()
    ensures forall m :: 8 <= m < |OperatorTable| ==> SymbolText(OperatorTable[m].1.0) == OperatorTable[m].0 + "="
  {
  }

  /**
   * For every operator spelling, the selected symbol displays as that
   * spelling followed by `=` exactly when the `=` was present.
   */
  lemma SelectDisplay(m: nat, eq: bool)
    requires m < |OperatorTable|
    ensures SymbolText(Select(OperatorTable[m].1, eq)) == OperatorTable[m].0 + (if eq then "=" else "")
  {
    OperatorSpellings();
    OperatorCompoundSpellingsLow();
    OperatorCompoundSpellingsHigh();
    if !eq {
      assert OperatorTable[m].0 + "" == OperatorTable[m].0;
    }
  }

  /**
   * The sixteen pairs of the table are a symbol and its compound form: the
   * compound displays as the plain symbol followed by `=`.
   */
  lemma CompoundDisplay(m: nat)
    requires m < |OperatorTable|
    ensures SymbolText(OperatorTable[m].1.0) == SymbolText(OperatorTable[m].1.1) + "="
  {
    SelectDisplay(m, true);
    SelectDisplay(m, false);
  }

  /** A match of `lit` followed by `c` is a match of `lit + [c]`. */
  lemma StartsWithExtend(s: string, i: nat, lit: string, c: char)
    requires StartsWith(s, i, lit) && i + |lit| < |s| && s[i + |lit|] == c
    ensures StartsWith(s, i, lit + [c])
  {
    assert s[i..i + |lit| + 1] == s[i..i + |lit|] + [c];
  }

  /** `sym()`: the punctuation choice, else an operator with an optional `=`. */
  function SymAt(s: string, i: nat): (r: Option<Lexeme>)
    requires i <= |s|
    ensures Advances(s, i, r)
    ensures r.Some? ==> r.value.tok.Symbol? && StartsWith(s, i, SymbolText(r.value.tok.sym))
  {
    match FirstPrefixFrom(s, i, PunctuationTable, 0)
    case Some(m) =>
      PunctuationSpellings();
      Some(Lexeme(Symbol(PunctuationTable[m].1), i + |PunctuationTable[m].0|))
    case None =>
      match FirstPrefixFrom(s, i, OperatorTable, 0)
      case None => None
      case Some(m) =>
        var j := i + |OperatorTable[m].0|;
        var eq := j < |s| && s[j] == '=';
        SelectDisplay(m, eq);
        if eq then
          StartsWithExtend(s, i, OperatorTable[m].0, '=');
          Some(Lexeme(Symbol(Select(OperatorTable[m].1, eq)), j + 1))
        else
          assert OperatorTable[m].0 + "" == OperatorTable[m].0;
          Some(Lexeme(Symbol(Select(OperatorTable[m].1, eq)), j))
  }

  // ------------------------------------------------------ strings, words

  /** Position of the first `"` at or after `j`, if any. */
  function QuoteFrom(s: string, j: nat): (r: Option<nat>)
    requires j <= |s|
    ensures r.Some? ==> j <= r.value < |s| && s[r.value] == '"'
    ensures forall m :: j <= m < |s| && (r.None? || m < r.value) ==> s[m] != '"'
    decreases |s| - j
  {
    if j == |s| then None
    else if s[j] == '"' then Some(j)
    else QuoteFrom(s, j + 1)
  }

  /** `string()`: every non-`"` character up to the closing `"`, with no escapes. */
  function StringAt(s: string, i: nat): (r: Option<Lexeme>)
    requires i <= |s|
    ensures Advances(s, i, r)
    ensures r.Some? <==> i < |s| && s[i] == '"' && QuoteFrom(s, i + 1).Some?
    ensures r.Some? ==>
      && r.value.tok.Str? && i + 2 <= r.value.end && s[r.value.end - 1] == '"'
      && r.value.tok.text == s[i + 1..r.value.end - 1]
      && (forall m :: 0 <= m < |r.value.tok.text| ==> r.value.tok.text[m] != '"')
  {
    if i < |s| && s[i] == '"' then
      match QuoteFrom(s, i + 1)
      case Some(j) => Some(Lexeme(Str(s[i + 1..j]), j + 1))
      case None => None
    else None
  }

  /** The identifier that starts at `i`: the whole run of identifier characters. */
  function WordEnd(s: string, i: nat): (j: nat)
    requires i < |s| && IsIdentStart(s[i])
    ensures i < j <= |s|
    ensures j == |s| || !IsIdentContinue(s[j])
  {
    IdentEnd(s, i + 1)
  }

  /** `kw()`: a whole identifier equal to a keyword spelling. */
  function KwAt(s: string, i: nat): (r: Option<Lexeme>)
    requires i <= |s|
    ensures Advances(s, i, r)
    ensures r.Some? <==> i < |s| && IsIdentStart(s[i]) && KeywordNamed(s[i..WordEnd(s, i)]).Some?
    ensures r.Some? ==> r.value.tok.Keyword? && r.value.end == WordEnd(s, i) && KeywordText(r.value.tok.kw) == s[i..r.value.end]
  {
    if i < |s| && IsIdentStart(s[i]) then
      var j := WordEnd(s, i);
      match KeywordNamed(s[i..j])
      case Some(k) => Some(Lexeme(Keyword(k), j))
      case None => None
    else None
  }

  /** `bool()`: the whole identifier `true` or `false`. */
  function BoolAt(s: string, i: nat): (r: Option<Lexeme>)
    requires i <= |s|
    ensures Advances(s, i, r)
    ensures r.Some? <==> i < |s| && IsIdentStart(s[i]) && s[i..WordEnd(s, i)] in {"true", "false"}
    ensures r.Some? ==> r.value == Lexeme(Bool(s[i..WordEnd(s, i)] == "true"), WordEnd(s, i))
  {
    if i < |s| && IsIdentStart(s[i]) then
      var j := WordEnd(s, i);
      if s[i..j] == "true" then Some(Lexeme(Bool(true), j))
      else if s[i..j] == "false" then Some(Lexeme(Bool(false), j))
      else None
    else None
  }

  /** `ident()`: any identifier. */
  function IdentAt(s: string, i: nat): (r: Option<Lexeme>)
    requires i <= |s|
    ensures Advances(s, i, r)
    ensures r.Some? <==> i < |s| && IsIdentStart(s[i])
    ensures r.Some? ==> r.value == Lexeme(Ident(s[i..WordEnd(s, i)]), WordEnd(s, i))
  {
    if i < |s| && IsIdentStart(s[i]) then
      var j := WordEnd(s, i);
      Some(Lexeme(Ident(s[i..j]), j))
    else None
  }

  /**
   * `token()` up to `ident`: keyword, symbol, string, bool, identifier,
   * in that order. A reserved word or `true`/`false` never becomes an
   * identifier, and no atom produces a delimiter token.
   */
  function TokenAt(s: string, i: nat): (r: Option<Lexeme>)
    requires i <= |s|
    ensures Advances(s, i, r)
    ensures i < |s| && IsIdentStart(s[i]) ==> r.Some? && r.value.end == WordEnd(s, i)
    ensures r.Some? ==> !r.value.tok.Open? && !r.value.tok.Close?
    ensures r.Some? && r.value.tok.Ident? ==>
      && i < |s| && IsIdentStart(s[i]) && r.value.tok.name == s[i..r.value.end] && r.value.end == WordEnd(s, i)
      && KeywordNamed(r.value.tok.name).None? && r.value.tok.name != "true" && r.value.tok.name != "false"
  {
    OrElse(KwAt(s, i), OrElse(SymAt(s, i), OrElse(StringAt(s, i), OrElse(BoolAt(s, i), IdentAt(s, i)))))
  }

  // ------------------------------------------------------------ flattening

  /** `TokenTree`: a single token, or a delimited sequence of spanned subtrees. */
  datatype TokenTree =
    | Leaf(tok: Token)
    | Tree(delim: Delim, children: seq<(TokenTree, Span.SimpleSpan)>)

  /**
   * What flattening a spanned tree produces: a leaf is itself; a tree is
   * a zero-width `Open` at its start, its children flattened in order, and a
   * zero-width `Close` at the end of its last child (its own end when it has none).
   */
  function Flat(p: (TokenTree, Span.SimpleSpan)): (r: seq<(Token, Span.SimpleSpan)>)
    ensures p.0.Leaf? ==> r == [(p.0.tok, p.1)]
    ensures p.0.Tree? ==> |r| >= 2 + |p.0.children|
    ensures p.0.Tree? ==> r[0] == (Open(p.0.delim), Span.SimpleSpan(p.1.start, p.1.start)) && r[|r| - 1].0 == Close(p.0.delim)
  {
    match p.0
    case Leaf(t) => [(t, p.1)]
    case Tree(d, cs) =>
      var last := if cs == [] then p.1.end else cs[|cs| - 1].1.end;
      [(Open(d), Span.SimpleSpan(p.1.start, p.1.start))] + FlatAll(cs) + [(Close(d), Span.SimpleSpan(last, last))]
  }

  /** What flattening a sequence of spanned trees produces: their flattenings, concatenated. */
  function FlatAll(cs: seq<(TokenTree, Span.SimpleSpan)>): (r: seq<(Token, Span.SimpleSpan)>)
    ensures |r| >= |cs|
  {
    if cs == [] then [] else FlatAll(cs[..|cs| - 1]) + Flat(cs[|cs| - 1])
  }

  /** `Flatten for Spanned<TokenTree>`. */
  method FlattenTree(p: (TokenTree, Span.SimpleSpan)) returns (tokens: seq<(Token, Span.SimpleSpan)>)
    ensures tokens == Flat(p)
  {
    match p.0
    case Leaf(t) =>
      tokens := [(t, p.1)];
    case Tree(d, cs) =>
      tokens := [(Open(d), Span.SimpleSpan(p.1.start, p.1.start))];
      var last := p.1.end;
      for k := 0 to |cs|
        invariant tokens == [(Open(d), Span.SimpleSpan(p.1.start, p.1.start))] + FlatAll(cs[..k])
        invariant last == if k == 0 then p.1.end else cs[k - 1].1.end
      {
        last := cs[k].1.end;
        var sub := FlattenTree(cs[k]);
        assert cs[..k + 1][..k] == cs[..k];
        tokens := tokens + sub;
      }
      assert cs[..|cs|] == cs;
      tokens := tokens + [(Close(d), Span.SimpleSpan(last, last))];
  }

  /** `Flatten for Vec<Spanned<TokenTree>>`. */
  method FlattenAll(cs: seq<(TokenTree, Span.SimpleSpan)>) returns (tokens: seq<(Token, Span.SimpleSpan)>)
    ensures tokens == FlatAll(cs)
  {
    tokens := [];
    for k := 0 to |cs|
      invariant tokens == FlatAll(cs[..k])
    {
      var sub := FlattenTree(cs[k]);
      assert cs[..k + 1][..k] == cs[..k];
      tokens := tokens + sub;
    }
    assert cs[..|cs|] == cs;
  }

  /** Flattening distributes over concatenation of tree sequences. */
  lemma {:induction false} FlatAllConcat(a: seq<(TokenTree, Span.SimpleSpan)>, b: seq<(TokenTree, Span.SimpleSpan)>)
    ensures FlatAll(a + b) == FlatAll(a) + FlatAll(b)
    decreases |b|
  {
    if b == [] {
      assert a + b == a;
    } else {
      var b' := b[..|b| - 1];
      assert (a + b)[..|a + b| - 1] == a + b';
      assert (a + b)[|a + b| - 1] == b[|b| - 1];
      FlatAllConcat(a, b');
    }
  }

  // ----------------------------------------------------------- nesting

  /**
   * Reads the tokens left to right with a stack of open delimiters: an
   * `Open` pushes, a `Close` must match the top and pops. `None` when a
   * `Close` does not match.
   */
  function Nest(ts: seq<(Token, Span.SimpleSpan)>, stack: seq<Delim>): Option<seq<Delim>>
    decreases |ts|
  {
    if ts == [] then Some(stack)
    else match ts[0].0
      case Open(d) => Nest(ts[1..], stack + [d])
      case Close(d) =>
        if stack != [] && stack[|stack| - 1] == d then Nest(ts[1..], stack[..|stack| - 1]) else None
      case _ => Nest(ts[1..], stack)
  }

  /** Every `Open` is closed by a matching `Close`, properly nested. */
  predicate Balanced(ts: seq<(Token, Span.SimpleSpan)>) {
    Nest(ts, []) == Some([])
  }

  /** A tree none of whose leaves is itself a delimiter token. */
  predicate PlainLeaves(p: (TokenTree, Span.SimpleSpan)) {
    match p.0
    case Leaf(t) => !t.Open? && !t.Close?
    case Tree(_, cs) => forall k :: 0 <= k < |cs| ==> PlainLeaves(cs[k])
  }

  /** Reading a concatenation reads the first part, then the second from where it left the stack. */
  lemma {:induction false} NestAppend(a: seq<(Token, Span.SimpleSpan)>, b: seq<(Token, Span.SimpleSpan)>, stack: seq<Delim>)
    ensures Nest(a + b, stack) == if Nest(a, stack).Some? then Nest(b, Nest(a, stack).value) else None
    decreases |a|
  {
    if a == [] {
      assert a + b == b;
    } else {
      assert (a + b)[0] == a[0];
      assert (a + b)[1..] == a[1..] + b;
      match a[0].0
      case Open(d) => NestAppend(a[1..], b, stack + [d]);
      case Close(d) =>
        if stack != [] && stack[|stack| - 1] == d {
          NestAppend(a[1..], b, stack[..|stack| - 1]);
        }
      case _ => NestAppend(a[1..], b, stack);
    }
  }

  /** A balanced middle, wrapped in a matching `Open` and `Close`, is balanced. */
  lemma NestWrap(d: Delim, open: Span.SimpleSpan, mid: seq<(Token, Span.SimpleSpan)>, close: Span.SimpleSpan, stack: seq<Delim>)
    requires Nest(mid, stack + [d]) == Some(stack + [d])
    ensures Nest([(Open(d), open)] + mid + [(Close(d), close)], stack) == Some(stack)
  {
    var tail := [(Close(d), close)];
    NestAppend([(Open(d), open)], mid + tail, stack);
    NestAppend(mid, tail, stack + [d]);
    assert [(Open(d), open)] + mid + tail == [(Open(d), open)] + (mid + tail);
    assert tail[1..] == [];
    assert (stack + [d])[..|stack + [d]| - 1] == stack;
  }

  /** A flattened tree leaves the stack as it found it. */
  lemma {:induction false} FlatNest(p: (TokenTree, Span.SimpleSpan), stack: seq<Delim>)
    requires PlainLeaves(p)
    ensures Nest(Flat(p), stack) == Some(stack)
  {
    match p.0
    case Leaf(t) =>
      assert [(t, p.1)][1..] == [];
    case Tree(d, cs) =>
      var last := if cs == [] then p.1.end else cs[|cs| - 1].1.end;
      FlatAllNest(cs, stack + [d]);
      NestWrap(d, Span.SimpleSpan(p.1.start, p.1.start), FlatAll(cs), Span.SimpleSpan(last, last), stack);
  }

  /** A flattened sequence of trees leaves the stack as it found it. */
  lemma {:induction false} FlatAllNest(cs: seq<(TokenTree, Span.SimpleSpan)>, stack: seq<Delim>)
    requires forall k :: 0 <= k < |cs| ==> PlainLeaves(cs[k])
    ensures Nest(FlatAll(cs), stack) == Some(stack)
  {
    if cs != [] {
      FlatAllNest(cs[..|cs| - 1], stack);
      FlatNest(cs[|cs| - 1], stack);
      NestAppend(FlatAll(cs[..|cs| - 1]), Flat(cs[|cs| - 1]), stack);
    }
  }

  /** Flattening a tree whose leaves are lexed tokens gives balanced, properly nested markers. */
  lemma FlatBalanced(p: (TokenTree, Span.SimpleSpan))
    requires PlainLeaves(p)
    ensures Balanced(Flat(p))
  {
    FlatNest(p, []);
  }

  /** The same for a sequence of trees. */
  lemma FlatAllBalanced(cs: seq<(TokenTree, Span.SimpleSpan)>)
    requires forall k :: 0 <= k < |cs| ==> PlainLeaves(cs[k])
    ensures Balanced(FlatAll(cs))
  {
    FlatAllNest(cs, []);
  }
}
