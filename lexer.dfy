/**
 * The tokenizer of parse/src/lexer.rs as a hand-written scanner.
 *
 * Each chumsky rule becomes a function from an input position to an optional
 * `Lexeme` (the token and the position after it). `choice`/`or` is ordered
 * choice (`OrElse`): the first rule that matches wins and nothing is
 * re-tried after a later part of a sequence fails. Between tokens, Unicode
 * whitespace and `#` comments are skipped. Token spans are byte offsets, as
 * chumsky's `&str` offsets are.
 */
module Lexer {
  import opened Wrappers
  import opened Text
  import opened Tokens
  import Span
  import Arena

  /** A matched token and the position just after its text. */
  datatype Lexeme = Lexeme(tok: Token, end: nat)

  /** A rule's match, when there is one, consumes at least one character of `s` starting at `i`. */
  predicate Advances(s: string, i: nat, r: Option<Lexeme>) {
    r.Some? ==> i < r.value.end <= |s|
  }

  /** `just(c).to(x)` for one character `c`. */
  function Lit1<X>(s: string, i: nat, c: char, x: X): Option<(X, nat)>
  {
    if i < |s| && s[i] == c then Some((x, i + 1)) else None
  }

  /** `just(cd).to(x)` for a two-character literal `cd`. */
  function Lit2<X>(s: string, i: nat, c: char, d: char, x: X): Option<(X, nat)>
  {
    if i + 1 < |s| && s[i] == c && s[i + 1] == d then Some((x, i + 2)) else None
  }

  /** `just(cde).to(x)` for a three-character literal `cde`. */
  function Lit3<X>(s: string, i: nat, c: char, d: char, e: char, x: X): Option<(X, nat)>
  {
    if i + 2 < |s| && s[i] == c && s[i + 1] == d && s[i + 2] == e then Some((x, i + 3)) else None
  }

  // ---------------------------------------------------------------- numbers

  /** `text::int(10)`: `0` alone, or a non-zero digit followed by every digit after it. */
  function IntDigits(s: string, i: nat): (r: Option<nat>)
    requires i <= |s|
    ensures r.Some? <==> i < |s| && IsDigit(s[i])
    ensures r.Some? ==> i < r.value <= |s| && AllDigits(s[i..r.value])
    ensures r.Some? && s[i] == '0' ==> r.value == i + 1
    ensures r.Some? && s[i] != '0' ==> r.value == |s| || !IsDigit(s[r.value])
  {
    if i < |s| && s[i] == '0' then Some(i + 1)
    else if i < |s| && IsDigit(s[i]) then Some(DigitsEnd(s, i + 1))
    else None
  }

  /**
   * `float`: digits, `.`, digits, carried as the two digit strings (the `f64`
   * parse, which cannot fail on such text, is not modelled).
   */
  function FloatRule(s: string, i: nat): (r: Option<Lexeme>)
    requires i <= |s|
    ensures Advances(s, i, r)
    ensures r.Some? ==> r.value.tok.Float? && AllDigits(r.value.tok.whole) && AllDigits(r.value.tok.frac)
    ensures r.Some? ==> |r.value.tok.whole| > 0 && |r.value.tok.frac| > 0
    ensures r.Some? ==> s[i..r.value.end] == r.value.tok.whole + "." + r.value.tok.frac
  {
    match IntDigits(s, i)
    case None => None
    case Some(j) =>
      if j < |s| && s[j] == '.' then
        match IntDigits(s, j + 1)
        case None => None
        case Some(k) =>
          assert s[i..k] == s[i..j] + "." + s[j + 1..k];
          Some(Lexeme(Float(s[i..j], s[j + 1..k]), k))
      else None
  }

  /**
   * `int`: `text::int` digits and an optional `i` that is consumed but not
   * part of the value. A value that fits in `i64` gives `Int`; a larger one
   * gives `Error` carrying the digit text.
   */
  function IntRule(s: string, i: nat): (r: Option<Lexeme>)
    requires i <= |s|
    ensures Advances(s, i, r)
    ensures r.Some? <==> IntDigits(s, i).Some?
    ensures r.Some? ==>
              var j := IntDigits(s, i).value;
              var v := DigitsValue(s[i..j]);
              && r.value.end == (if j < |s| && s[j] == 'i' then j + 1 else j)
              && (v <= I64Max ==> r.value.tok == Int(v))
              && (v > I64Max ==> r.value.tok == Error(s[i..j]))
  {
    match IntDigits(s, i)
    case None => None
    case Some(j) =>
      var v := DigitsValue(s[i..j]);
      var e := if j < |s| && s[j] == 'i' then j + 1 else j;
      if v <= I64Max then Some(Lexeme(Int(v), e)) else Some(Lexeme(Error(s[i..j]), e))
  }

  // -------------------------------------------------------------- operators

  /** `concat`: `..`. */
  function ConcatOp(s: string, i: nat): (r: Option<(Op, nat)>)
    ensures r.Some? <==> StartsWith(s, i, "..")
    ensures r.Some? ==> r.value == (Concat, i + 2)
  {
    Lit2(s, i, '.', '.', Concat)
  }

  /** `arithmetic`: `+ - * / %`. */
  function Arithmetic(s: string, i: nat): (r: Option<(Op, nat)>)
    ensures r.Some? ==> r.value.1 == i + 1 <= |s| && r.value.0 in {Add, Sub, Mul, Div, Mod}
  {
    OrElse(Lit1(s, i, '+', Add),
    OrElse(Lit1(s, i, '-', Sub),
    OrElse(Lit1(s, i, '*', Mul),
    OrElse(Lit1(s, i, '/', Div),
           Lit1(s, i, '%', Mod)))))
  }

  /** `comparison`: the two-character comparisons before their one-character prefixes. */
  function Comparison(s: string, i: nat): (r: Option<(Op, nat)>)
    ensures r.Some? ==> i < r.value.1 <= |s|
  {
    OrElse(Lit2(s, i, '!', '=', Neq),
    OrElse(Lit2(s, i, '=', '=', Eq),
    OrElse(Lit2(s, i, '<', '=', Leq),
    OrElse(Lit2(s, i, '>', '=', Geq),
    OrElse(Lit1(s, i, '>', Gt),
           Lit1(s, i, '<', Lt))))))
  }

  /** `logical`: the words `not`, `and`, `or`, matched as plain text. */
  function Logical(s: string, i: nat): (r: Option<(Op, nat)>)
    ensures r.Some? ==> i < r.value.1 <= |s| && IsIdentStart(s[i])
  {
    OrElse(Lit3(s, i, 'n', 'o', 't', Not),
    OrElse(Lit3(s, i, 'a', 'n', 'd', And),
           Lit2(s, i, 'o', 'r', Or)))
  }

  /** `op`: concat, arithmetic, comparison, logical, in that order. */
  function OpRule(s: string, i: nat): (r: Option<Lexeme>)
    ensures Advances(s, i, r)
    ensures r.Some? ==> r.value.tok.Op?
    ensures r.Some? && r.value.tok.op == Eq ==> i + 1 < |s| && s[i] == '=' && s[i + 1] == '='
    ensures r.Some? && r.value.tok.op in {And, Or, Not} ==> IsIdentStart(s[i])
  {
    var m: Option<(Op, nat)> := OrElse(ConcatOp(s, i), OrElse(Arithmetic(s, i), OrElse(Comparison(s, i), Logical(s, i))));
    match m
    case None => None
    case Some((op, e)) => Some(Lexeme(Token.Op(op), e))
  }

  /**
   * `assign`: an optional arithmetic operator or `..`, then `=`. Once the
   * optional operator has matched, a missing `=` fails the whole rule.
   */
  function AssignRule(s: string, i: nat): (r: Option<Lexeme>)
    ensures Advances(s, i, r)
    ensures r.Some? ==> r.value.tok.Assign? && s[r.value.end - 1] == '='
    ensures r.Some? && r.value.tok.compound.Some? ==> r.value.tok.compound.value in {Add, Sub, Mul, Div, Mod, Concat}
    ensures i < |s| && s[i] == '=' ==> r == Some(Lexeme(Assign(None), i + 1))
  {
    var m: Option<(Op, nat)> := OrElse(Arithmetic(s, i), ConcatOp(s, i));
    match m
    case Some((op, j)) =>
      if j < |s| && s[j] == '=' then Some(Lexeme(Assign(Some(op)), j + 1)) else None
    case None =>
      if i < |s| && s[i] == '=' then Some(Lexeme(Assign(None), i + 1)) else None
  }

  // ---------------------------------------------------------------- symbols

  /** `sym`: `::` before `:`, then the arrows, `?`, `|`, `\`, `,`. */
  function SymRule(s: string, i: nat): (r: Option<Lexeme>)
    ensures Advances(s, i, r)
    ensures r.Some? ==> r.value.tok.Symbol? && r.value.tok.sym !in {Dot, Bang}
  {
    var m: Option<(Symbol, nat)> :=
      OrElse(Lit2(s, i, ':', ':', DoubleColon),
      OrElse(Lit1(s, i, ':', Colon),
      OrElse(Lit2(s, i, '-', '>', RArrow),
      OrElse(Lit2(s, i, '<', '-', LArrow),
      OrElse(Lit2(s, i, '=', '>', FatArrow),
      OrElse(Lit1(s, i, '?', Optional),
      OrElse(Lit1(s, i, '|', Pipe),
      OrElse(Lit1(s, i, '\\', Backslash),
             Lit1(s, i, ',', Comma)))))))));
    match m
    case None => None
    case Some((sym, e)) => Some(Lexeme(Token.Symbol(sym), e))
  }

  /** `sym2`: `.` and `!`, tried only after the operators. */
  function Sym2Rule(s: string, i: nat): (r: Option<Lexeme>)
    ensures Advances(s, i, r)
    ensures r.Some? ==> r.value.tok.Symbol? && r.value.tok.sym in {Dot, Bang}
  {
    var m: Option<(Symbol, nat)> := OrElse(Lit1(s, i, '.', Dot), Lit1(s, i, '!', Bang));
    match m
    case None => None
    case Some((sym, e)) => Some(Lexeme(Token.Symbol(sym), e))
  }

  /** `delim`: round, square and curly brackets (angle brackets are operators here). */
  function DelimRule(s: string, i: nat): (r: Option<Lexeme>)
    ensures Advances(s, i, r)
    ensures r.Some? ==> (r.value.tok.Open? && r.value.tok.open != Angle) || (r.value.tok.Close? && r.value.tok.close != Angle)
  {
    var m: Option<(Token, nat)> :=
      OrElse(Lit1(s, i, '(', Open(Paren)),
      OrElse(Lit1(s, i, ')', Close(Paren)),
      OrElse(Lit1(s, i, '[', Open(Bracket)),
      OrElse(Lit1(s, i, ']', Close(Bracket)),
      OrElse(Lit1(s, i, '{', Open(Brace)),
             Lit1(s, i, '}', Close(Brace)))))));
    match m
    case None => None
    case Some((t, e)) => Some(Lexeme(t, e))
  }

  /** End of the run of spaces starting at `i`. */
  function SpacesEnd(s: string, i: nat): (j: nat)
    requires i <= |s|
    ensures i <= j <= |s|
    ensures forall k :: i <= k < j ==> s[k] == ' '
    ensures j == |s| || s[j] != ' '
    decreases |s| - i
  {
    if i < |s| && s[i] == ' ' then SpacesEnd(s, i + 1) else i
  }

  /**
   * `indent`: a run of spaces, counted. Corrected to need at least one space:
   * as written the rule also matches nothing, which would shadow the error
   * fallback and let the token loop stop making progress.
   */
  function IndentRule(s: string, i: nat): (r: Option<Lexeme>)
    requires i <= |s|
    ensures Advances(s, i, r)
    ensures r.Some? <==> i < |s| && s[i] == ' '
    ensures r.Some? ==> r.value.tok == Indent(r.value.end - i) && forall k :: i <= k < r.value.end ==> s[k] == ' '
  {
    if i < |s| && s[i] == ' ' then
      var j := SpacesEnd(s, i);
      Some(Lexeme(Indent(j - i), j))
    else None
  }

  /**
   * `indent` as written in the source: a run of zero or more spaces, counted.
   * It always matches, and matches nothing where no space follows.
   */
  function AsWrittenIndentRule(s: string, i: nat): (r: Option<Lexeme>)
    requires i <= |s|
    ensures r.Some? && i <= r.value.end <= |s| && r.value.tok == Indent(r.value.end - i)
    ensures r.value.end == i <==> i == |s| || s[i] != ' '
  {
    var j := SpacesEnd(s, i);
    Some(Lexeme(Indent(j - i), j))
  }

  // ------------------------------------------------------- words and quotes

  /** The keyword spelled by `w`, as the `word` rule's table lists them. */
  function KeywordNamed(w: string): (r: Option<Keyword>)
    ensures r.Some? ==> KeywordText(r.value) == w
  {
    if w == "fn" then Some(Fn)
    else if w == "type" then Some(Type)
    else if w == "import" then Some(Import)
    else if w == "struct" then Some(Struct)
    else if w == "enum" then Some(Enum)
    else if w == "self" then Some(SelfParam)
    else if w == "Self" then Some(SelfType)
    else if w == "let" then Some(Let)
    else if w == "match" then Some(Match)
    else if w == "with" then Some(With)
    else if w == "as" then Some(As)
    else if w == "if" then Some(If)
    else if w == "then" then Some(Then)
    else if w == "else" then Some(Else)
    else if w == "for" then Some(For)
    else if w == "in" then Some(In)
    else if w == "while" then Some(While)
    else if w == "loop" then Some(Loop)
    else if w == "break" then Some(Break)
    else if w == "continue" then Some(Continue)
    else if w == "return" then Some(Return)
    else None
  }

  /** The word table and the keyword display table are inverse: each keyword's display names it. */
  lemma KeywordNamedDisplay(k: Keyword)
    ensures KeywordNamed(KeywordText(k)) == Some(k)
  {
  }

  /** A word names keyword `k` exactly when it is `k`'s display text. */
  lemma KeywordNamedIff(w: string)
    ensures forall k :: KeywordNamed(w) == Some(k) <==> w == KeywordText(k)
  {
    forall k
      ensures KeywordNamed(w) == Some(k) <==> w == KeywordText(k)
    {
      KeywordNamedDisplay(k);
    }
  }

  /**
   * The `word` rule's mapping of an identifier: a reserved spelling gives its
   * keyword, `_` gives `Wildcard`, and any other word gives `Ident` of itself.
   */
  function WordToken(w: string): (t: Token)
    ensures forall k :: t == Token.Keyword(k) <==> w == KeywordText(k)
    ensures t == Wildcard <==> w == "_"
    ensures t.Ident? <==> w != "_" && forall k :: w != KeywordText(k)
    ensures t.Ident? ==> t.name == w
    ensures t.Keyword? || t == Wildcard || t.Ident?
  {
    KeywordNamedIff(w);
    match KeywordNamed(w)
    case Some(k) => Token.Keyword(k)
    case None => if w == "_" then Wildcard else Ident(w)
  }

  /** `word`: an identifier (ASCII start character, then continue characters), classified. */
  function WordRule(s: string, i: nat): (r: Option<Lexeme>)
    requires i <= |s|
    ensures Advances(s, i, r)
    ensures r.Some? <==> i < |s| && IsIdentStart(s[i])
    ensures r.Some? ==> r.value.end == IdentEnd(s, i + 1) && r.value.tok == WordToken(s[i..r.value.end])
  {
    if i < |s| && IsIdentStart(s[i]) then
      var j := IdentEnd(s, i + 1);
      Some(Lexeme(WordToken(s[i..j]), j))
    else None
  }

  /**
   * The `escape` table: the character after a backslash and what it decodes
   * to; any other character is not an escape.
   */
  function EscapeChar(c: char): (r: Option<char>)
  {
    if c == '\\' then Some('\\')
    else if c == '/' then Some('/')
    else if c == '"' then Some('"')
    else if c == 'b' then Some('\U{08}')
    else if c == 'r' then Some('\r')
    else if c == 'n' then Some('\n')
    else if c == 't' then Some('\t')
    else None
  }

  /**
   * The escape table's rows: exactly the seven letters escape, the three
   * punctuation escapes stand for themselves, the four letter escapes for
   * control characters, and no two escapes decode to the same character.
   */
  lemma EscapeTable(c: char, d: char)
    ensures EscapeChar(c).Some? <==> c in "\\/\"brnt"
    ensures c in "\\/\"" ==> EscapeChar(c) == Some(c)
    ensures c in "brnt" ==> EscapeChar(c).Some? && EscapeChar(c).value != c && EscapeChar(c).value as int < 32
    ensures c != d && EscapeChar(c).Some? && EscapeChar(d).Some? ==> EscapeChar(c).value != EscapeChar(d).value
  {
  }

  /** `escape`: a backslash and a character of the escape table, decoded. */
  function Escape(s: string, j: nat): (r: Option<(char, nat)>)
    ensures r.Some? <==> j + 1 < |s| && s[j] == '\\' && EscapeChar(s[j + 1]).Some?
    ensures r.Some? ==> r.value == (EscapeChar(s[j + 1]).value, j + 2)
  {
    if j + 1 < |s| && s[j] == '\\' && EscapeChar(s[j + 1]).Some? then Some((EscapeChar(s[j + 1]).value, j + 2)) else None
  }

  /**
   * The repeated body of `string` and its closing quote: plain characters
   * (anything but `\` and `"`) and escapes, then `"`. A backslash not
   * followed by an escape character, or a missing closing quote, fails.
   */
  function StringBody(s: string, j: nat): (r: Option<(string, nat)>)
    requires j <= |s|
    ensures r.Some? ==> j < r.value.1 <= |s| && s[r.value.1 - 1] == '"' && |r.value.0| < r.value.1 - j
    decreases |s| - j
  {
    if j == |s| then None
    else if s[j] == '"' then Some(([], j + 1))
    else if s[j] == '\\' then
      match Escape(s, j)
      case None => None
      case Some((c, k)) =>
        match StringBody(s, k)
        case None => None
        case Some((t, e)) => Some(([c] + t, e))
    else
      match StringBody(s, j + 1)
      case None => None
      case Some((t, e)) => Some(([s[j]] + t, e))
  }

  /** `string`: `"`, the body, `"`; the token carries the decoded content. */
  function StringRule(s: string, i: nat): (r: Option<Lexeme>)
    requires i <= |s|
    ensures Advances(s, i, r)
    ensures r.Some? <==> i < |s| && s[i] == '"' && StringBody(s, i + 1).Some?
    ensures r.Some? ==> r.value.tok == String(StringBody(s, i + 1).value.0) && s[r.value.end - 1] == '"'
  {
    if i < |s| && s[i] == '"' then
      match StringBody(s, i + 1)
      case None => None
      case Some((t, e)) => Some(Lexeme(String(t), e))
    else None
  }

  /**
   * `char`: `'`, one plain character (anything but `\` and `'`) or one
   * escape, then `'`.
   */
  function CharRule(s: string, i: nat): (r: Option<Lexeme>)
    requires i <= |s|
    ensures Advances(s, i, r)
    ensures r.Some? ==> i + 1 < |s| && s[i] == '\'' && s[r.value.end - 1] == '\'' && r.value.tok.Char?
    ensures r.Some? && s[i + 1] != '\\' ==> s[i + 1] != '\'' && r.value == Lexeme(Char(s[i + 1]), i + 3)
    ensures r.Some? && s[i + 1] == '\\' ==> Escape(s, i + 1).Some? && r.value == Lexeme(Char(Escape(s, i + 1).value.0), i + 4)
  {
    if i + 1 < |s| && s[i] == '\'' then
      var unit: Option<(char, nat)> :=
        if s[i + 1] != '\\' && s[i + 1] != '\'' then Some((s[i + 1], i + 2))
        else Escape(s, i + 1);
      match unit
      case None => None
      case Some((c, k)) =>
        if k < |s| && s[k] == '\'' then Some(Lexeme(Char(c), k + 1)) else None
    else None
  }

  // ------------------------------------------------------------ token choice

  /** The ordered choice of `token` before its last alternative: word, string, char, float, int, sym, assign, op, sym2, delim. */
  function LeadingRules(s: string, i: nat): (r: Option<Lexeme>)
    requires i < |s|
    ensures Advances(s, i, r)
  {
    OrElse(WordRule(s, i),
    OrElse(StringRule(s, i),
    OrElse(CharRule(s, i),
    OrElse(FloatRule(s, i),
    OrElse(IntRule(s, i),
    OrElse(SymRule(s, i),
    OrElse(AssignRule(s, i),
    OrElse(OpRule(s, i),
    OrElse(Sym2Rule(s, i),
           DelimRule(s, i))))))))))
  }

  /** The whole ordered choice of `token`, ending with `indent`. `None` when no rule matches. */
  function RuleAt(s: string, i: nat): (r: Option<Lexeme>)
    requires i < |s|
    ensures Advances(s, i, r)
  {
    OrElse(LeadingRules(s, i), IndentRule(s, i))
  }

  /**
   * The ordered choice with `indent` as written. At a character no other rule
   * takes, it matches zero spaces: the error fallback after it is never
   * reached, and the token consumes nothing.
   */
  lemma AsWrittenIndentShadowsError(s: string, i: nat)
    requires i < |s| && RuleAt(s, i).None?
    ensures OrElse(LeadingRules(s, i), AsWrittenIndentRule(s, i)) == Some(Lexeme(Indent(0), i))
  {
  }

  /**
   * One token at `i`: the first matching rule, or else `Error` holding the
   * single character at `i`. Always consumes at least one character; the
   * operators `==`, `and`, `or` and `not` are never produced, because
   * `assign` and `word` come first.
   */
  function NextToken(s: string, i: nat): (r: Lexeme)
    requires i < |s|
    ensures i < r.end <= |s|
    ensures RuleAt(s, i).None? ==> r == Lexeme(Error([s[i]]), i + 1)
    ensures !(r.tok.Op? && r.tok.op in {Eq, And, Or, Not})
  {
    match RuleAt(s, i)
    case Some(l) => l
    case None => Lexeme(Error([s[i]]), i + 1)
  }

  /** At an identifier start, the token is the word rule's. */
  lemma NextTokenWord(s: string, i: nat)
    requires i < |s| && IsIdentStart(s[i])
    ensures NextToken(s, i) == WordRule(s, i).value
  {
  }

  /** At a digit, the token is a float when the float rule matches and an integer otherwise. */
  lemma NextTokenNumber(s: string, i: nat)
    requires i < |s| && IsDigit(s[i])
    ensures NextToken(s, i) == (if FloatRule(s, i).Some? then FloatRule(s, i).value else IntRule(s, i).value)
  {
  }

  /** At a double quote, the token is the string rule's, or else the quote alone as an error. */
  lemma NextTokenString(s: string, i: nat)
    requires i < |s| && s[i] == '"'
    ensures NextToken(s, i) == (if StringRule(s, i).Some? then StringRule(s, i).value else Lexeme(Error("\""), i + 1))
  {
  }

  /** At a single quote, the token is the char rule's, or else the quote alone as an error. */
  lemma NextTokenChar(s: string, i: nat)
    requires i < |s| && s[i] == '\''
    ensures NextToken(s, i) == (if CharRule(s, i).Some? then CharRule(s, i).value else Lexeme(Error("'"), i + 1))
  {
  }

  /** Where `sym` matches, its symbol is the token. */
  lemma NextTokenSym(s: string, i: nat)
    requires i < |s| && SymRule(s, i).Some?
    ensures NextToken(s, i) == SymRule(s, i).value
  {
  }

  /** Where `assign` matches and `sym` does not, the assignment is the token. */
  lemma NextTokenAssign(s: string, i: nat)
    requires i < |s| && SymRule(s, i).None? && AssignRule(s, i).Some?
    ensures NextToken(s, i) == AssignRule(s, i).value
  {
  }

  /** Where `op` matches at a non-letter and neither `sym` nor `assign` does, the operator is the token. */
  lemma NextTokenOp(s: string, i: nat)
    requires i < |s| && !IsIdentStart(s[i]) && SymRule(s, i).None? && AssignRule(s, i).None? && OpRule(s, i).Some?
    ensures NextToken(s, i) == OpRule(s, i).value
  {
  }

  /** Where `sym2` matches and `op` does not, its symbol is the token. */
  lemma NextTokenSym2(s: string, i: nat)
    requires i < |s| && OpRule(s, i).None? && Sym2Rule(s, i).Some?
    ensures NextToken(s, i) == Sym2Rule(s, i).value
  {
  }

  /** Where `delim` matches, the bracket is the token. */
  lemma NextTokenDelim(s: string, i: nat)
    requires i < |s| && DelimRule(s, i).Some?
    ensures NextToken(s, i) == DelimRule(s, i).value
  {
  }

  // ---------------------------------------------------- whitespace and comments

  /** Position of the first line break at or after `j`, or the end of the input. */
  function LineEnd(s: string, j: nat): (k: nat)
    requires j <= |s|
    ensures j <= k <= |s|
    ensures forall m :: j <= m < k ==> !IsNewline(s[m])
    ensures k == |s| || IsNewline(s[k])
    decreases |s| - j
  {
    if j == |s| || IsNewline(s[j]) then j else LineEnd(s, j + 1)
  }

  /**
   * The comment body's `newline().not()` as written: in chumsky 1.0 `not()`
   * is a negative lookahead, so it succeeds wherever no line break starts
   * and consumes nothing there.
   */
  function AsWrittenNotNewline(s: string, j: nat): (r: Option<nat>)
    requires j <= |s|
    ensures r.Some? <==> j == |s| || !IsNewline(s[j])
    ensures r.Some? ==> r.value == j
  {
    if j < |s| && IsNewline(s[j]) then None else Some(j)
  }

  /**
   * Right after a `#` that is not followed by a line break, as at the end
   * of the input `#`, the as-written body succeeds without moving, so its
   * `repeated()` makes no progress; the body as modelled, `LineEnd`,
   * moves past every non-break character.
   */
  lemma AsWrittenCommentStalls(s: string, i: nat)
    requires i < |s| && s[i] == '#'
    requires i + 1 == |s| || !IsNewline(s[i + 1])
    ensures AsWrittenNotNewline(s, i + 1) == Some(i + 1)
    ensures i + 1 < |s| ==> LineEnd(s, i + 1) > i + 1
  {
  }

  /** `padded`: skip whitespace. */
  function SkipWhitespace(s: string, i: nat): (j: nat)
    requires i <= |s|
    ensures i <= j <= |s|
    ensures forall m :: i <= m < j ==> IsWhitespace(s[m])
    ensures j == |s| || !IsWhitespace(s[j])
    decreases |s| - i
  {
    if i < |s| && IsWhitespace(s[i]) then SkipWhitespace(s, i + 1) else i
  }

  /** Position `m` lies in a comment begun at or after `i`: a `#` no later than `m` with no line break after it up to `m`. */
  ghost predicate InComment(s: string, i: nat, m: nat)
    requires m < |s|
  {
    exists c :: i <= c <= m && s[c] == '#' && forall q :: c < q <= m ==> !IsNewline(s[q])
  }

  /**
   * The padding around a token: any mix of whitespace and `#` comments, a
   * comment running up to the next line break. Stops at a character that
   * can start a token, or at the end; every character passed over is
   * whitespace or part of a comment.
   */
  function Skip(s: string, i: nat): (j: nat)
    requires i <= |s|
    ensures i <= j <= |s|
    ensures j == |s| || (!IsWhitespace(s[j]) && s[j] != '#')
    ensures forall m :: i <= m < j ==> IsWhitespace(s[m]) || InComment(s, i, m)
    decreases |s| - i
  {
    if i < |s| && IsWhitespace(s[i]) then Skip(s, i + 1)
    else if i < |s| && s[i] == '#' then Skip(s, LineEnd(s, i + 1))
    else i
  }

  /** Skipping is idempotent: a skipped-to position is a fixed point. */
  lemma SkipFixed(s: string, i: nat)
    requires i <= |s|
    ensures Skip(s, Skip(s, i)) == Skip(s, i)
  {
  }

  // ----------------------------------------------------------- token loop

  /** A token with the character positions of its own text. */
  datatype Located = Located(tok: Token, start: nat, end: nat)

  /**
   * The repeated token loop from `i`: skip padding; stop at the end of the
   * input; otherwise take `NextToken` and continue after it.
   */
  function Scan(s: string, i: nat): (ls: seq<Located>)
    requires i <= |s|
    ensures |ls| <= |s| - Skip(s, i)
    decreases |s| - i
  {
    var p := Skip(s, i);
    if p == |s| then []
    else
      var l := NextToken(s, p);
      [Located(l.tok, p, l.end)] + Scan(s, l.end)
  }

  /** One step of the loop: the token at the end of the padding, then the loop after it. */
  lemma ScanStep(s: string, i: nat)
    requires i <= |s| && Skip(s, i) < |s|
    ensures var p := Skip(s, i); var l := NextToken(s, p);
      && |Scan(s, i)| == |Scan(s, l.end)| + 1
      && Scan(s, i)[0] == Located(l.tok, p, l.end)
      && forall k :: 0 < k < |Scan(s, i)| ==> Scan(s, i)[k] == Scan(s, l.end)[k - 1]
  {
  }

  /** Located tokens lie inside `[i, n)`, each non-empty and ending before the next starts. */
  predicate Ordered(ls: seq<Located>, i: nat, n: nat) {
    && (forall k :: 0 <= k < |ls| ==> i <= ls[k].start < ls[k].end <= n)
    && (forall k :: 0 < k < |ls| ==> ls[k - 1].end <= ls[k].start)
  }

  /** A token in front of an ordered list that starts after it keeps the list ordered. */
  lemma OrderedCons(x: Located, t: seq<Located>, i: nat, n: nat)
    requires i <= x.start < x.end <= n && Ordered(t, x.end, n)
    ensures Ordered([x] + t, i, n)
  {
    var r := [x] + t;
    forall k | 0 < k < |r| ensures r[k - 1].end <= r[k].start {
      assert r[k] == t[k - 1];
      if k > 1 {
        assert r[k - 1] == t[k - 2];
      }
    }
  }

  /** Every token is non-empty, inside the input after `i`, and ends before the next starts. */
  lemma {:induction false} ScanOrdered(s: string, i: nat)
    requires i <= |s|
    ensures Ordered(Scan(s, i), i, |s|)
    decreases |s| - i
  {
    var p := Skip(s, i);
    if p < |s| {
      var l := NextToken(s, p);
      ScanOrdered(s, l.end);
      assert Scan(s, i) == [Located(l.tok, p, l.end)] + Scan(s, l.end);
      OrderedCons(Located(l.tok, p, l.end), Scan(s, l.end), i, |s|);
    }
  }

  /** Each located token is the `NextToken` at its own start. */
  predicate Tokenised(s: string, ls: seq<Located>) {
    forall k :: 0 <= k < |ls| ==> ls[k].start < |s| && NextToken(s, ls[k].start) == Lexeme(ls[k].tok, ls[k].end)
  }

  /** The `NextToken` at its start in front of a tokenised list keeps it tokenised. */
  lemma TokenisedCons(s: string, x: Located, t: seq<Located>)
    requires x.start < |s| && NextToken(s, x.start) == Lexeme(x.tok, x.end) && Tokenised(s, t)
    ensures Tokenised(s, [x] + t)
  {
    var r := [x] + t;
    forall k | 0 < k < |r| ensures r[k].start < |s| && NextToken(s, r[k].start) == Lexeme(r[k].tok, r[k].end) {
      assert r[k] == t[k - 1];
    }
  }

  /** Every token of the loop is the `NextToken` at its start. */
  lemma {:induction false} ScanTokenised(s: string, i: nat)
    requires i <= |s|
    ensures Tokenised(s, Scan(s, i))
    decreases |s| - i
  {
    var p := Skip(s, i);
    if p < |s| {
      var l := NextToken(s, p);
      ScanTokenised(s, l.end);
      assert Scan(s, i) == [Located(l.tok, p, l.end)] + Scan(s, l.end);
      TokenisedCons(s, Located(l.tok, p, l.end), Scan(s, l.end));
    }
  }

  /** The `k`-th token is the `NextToken` at its start. */
  lemma ScanAt(s: string, i: nat, k: nat)
    requires i <= |s| && k < |Scan(s, i)|
    ensures Scan(s, i)[k].start < |s|
    ensures NextToken(s, Scan(s, i)[k].start) == Lexeme(Scan(s, i)[k].tok, Scan(s, i)[k].end)
  {
    ScanTokenised(s, i);
  }

  /**
   * The loop stops exactly when only padding is left: there are no tokens when
   * the padding from `i` reaches the end, the first token starts where that
   * padding ends, and only padding follows the last token.
   */
  lemma {:induction false} ScanEnds(s: string, i: nat)
    requires i <= |s|
    ensures Scan(s, i) == [] <==> Skip(s, i) == |s|
    ensures Scan(s, i) != [] ==> Scan(s, i)[0].start == Skip(s, i)
    ensures Scan(s, i) != [] ==> Scan(s, i)[|Scan(s, i)| - 1].end <= |s| && Skip(s, Scan(s, i)[|Scan(s, i)| - 1].end) == |s|
    decreases |s| - i
  {
    var p := Skip(s, i);
    if p < |s| {
      var l := NextToken(s, p);
      ScanStep(s, i);
      ScanEnds(s, l.end);
    }
  }

  /** Between two neighbouring tokens there is only padding: token `k` starts where the padding after token `k - 1` ends. */
  lemma {:induction false} ScanGap(s: string, i: nat, k: nat)
    requires i <= |s| && 0 < k < |Scan(s, i)|
    ensures Scan(s, i)[k - 1].end <= |s| && Scan(s, i)[k].start == Skip(s, Scan(s, i)[k - 1].end)
    decreases |s| - i
  {
    var p := Skip(s, i);
    var l := NextToken(s, p);
    ScanStep(s, i);
    if k > 1 {
      ScanGap(s, l.end, k - 1);
    } else {
      ScanEnds(s, l.end);
    }
  }

  /** Byte spans in source `src` for located tokens of `s`. */
  function Spans(s: string, ls: seq<Located>, src: Arena.Id<Span.Source>): (r: seq<(Token, Span.Span)>)
    requires forall k :: 0 <= k < |ls| ==> ls[k].start <= ls[k].end <= |s|
    ensures |r| == |ls|
    ensures forall k :: 0 <= k < |r| ==>
              r[k].0 == ls[k].tok && r[k].1.source == src
              && r[k].1.start == ByteOffset(s, ls[k].start) && r[k].1.end == ByteOffset(s, ls[k].end)
  {
    seq(|ls|, k requires 0 <= k < |ls| => (ls[k].tok, Span.Span(ByteOffset(s, ls[k].start), ByteOffset(s, ls[k].end), src)))
  }

  /**
   * `lexer()` over `s` in context `src`: the token loop, then trailing
   * whitespace and the end of input. When the input (after whitespace) is
   * only comments, the loop's one attempt gives the comments back and the
   * outer padding cannot pass the `#`, so the whole lex fails.
   */
  function Lex(s: string, src: Arena.Id<Span.Source>): (r: Option<seq<(Token, Span.Span)>>)
    ensures r.None? <==> Skip(s, 0) == |s| && SkipWhitespace(s, 0) < |s|
  {
    if Skip(s, 0) == |s| && SkipWhitespace(s, 0) < |s| then None
    else
      ScanOrdered(s, 0);
      Some(Spans(s, Scan(s, 0), src))
  }
}
