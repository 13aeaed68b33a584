/**
 * The token vocabulary of parse/src/token.rs and its `Display` rendering.
 *
 * Interned strings (`Intern<String>`) are the strings themselves. A float
 * token carries the two digit strings the lexer matched instead of an `f64`.
 */
module Tokens {
  import opened Wrappers
  import opened Text
  import Span

  /** A 64-bit signed integer, the payload of `Token::Int`. */
  type I64 = x: int | -0x8000_0000_0000_0000 <= x <= 0x7FFF_FFFF_FFFF_FFFF

  /** A 64-bit unsigned integer, the payload of `Token::Nat`. */
  type U64 = x: int | 0 <= x <= 0xFFFF_FFFF_FFFF_FFFF

  /** The largest `i64`, the bound the integer rule checks against. */
  const I64Max: nat := 0x7FFF_FFFF_FFFF_FFFF

  datatype Op =
    | Eq | Neq | Lt | Gt | Leq | Geq
    | Add | Sub | Mul | Div | Mod
    | And | Or | Not
    | Concat

  datatype Delim = Paren | Bracket | Brace | Angle

  datatype Symbol =
    | Dot | Colon | DoubleColon | RArrow | LArrow | FatArrow
    | Optional | Pipe | Backslash | Comma | Bang

  datatype Keyword =
    | Fn | Type | Import | Struct | SelfParam | SelfType | Let | Match | With | As
    | If | Then | Else | For | In | While | Loop | Break | Continue | Return | Enum

  datatype Token =
    | Int(ival: I64)
    | Nat(nval: U64)
    | Float(whole: string, frac: string)
    | String(text: string)
    | Char(ch: char)
    | Bool(flag: bool)
    | Ident(name: string)
    | Wildcard
    | Op(op: Op)
    | Symbol(sym: Symbol)
    | Keyword(kw: Keyword)
    /** Opening delimiters ( [ < { */
    | Open(open: Delim)
    /** Closing delimiters ) ] > } */
    | Close(close: Delim)
    /** `=`, or a compound assignment such as `+=` */
    | Assign(compound: Option<Op>)
    | Error(error: string)
    | Indent(width: nat)
    | Newline

  /** `Token::spanned`: the token paired with its span, both unchanged. */
  function Spanned(t: Token, span: Span.Span): (r: (Token, Span.Span))
    ensures r.0 == t && r.1 == span
  {
    (t, span)
  }

  /** `Display for Op`: a comparison or arithmetic sign, `..`, or a lower-case word. */
  function OpText(op: Op): (s: string)
    ensures 1 <= |s| <= 3
    ensures op in {And, Or, Not} <==> IsIdentStart(s[0])
    ensures IsAscii(s)
  {
    match op
    case Eq => "=="
    case Neq => "!="
    case Lt => "<"
    case Gt => ">"
    case Leq => "<="
    case Geq => ">="
    case Add => "+"
    case Sub => "-"
    case Mul => "*"
    case Div => "/"
    case Mod => "%"
    case And => "and"
    case Or => "or"
    case Not => "not"
    case Concat => ".."
  }

  /** `Display for Symbol`: one or two punctuation characters. */
  function SymbolText(sym: Symbol): (s: string)
    ensures 1 <= |s| <= 2
    ensures !IsIdentStart(s[0]) && !IsDigit(s[0]) && !IsWhitespace(s[0])
    ensures IsAscii(s)
  {
    match sym
    case Dot => "."
    case Colon => ":"
    case DoubleColon => "::"
    case RArrow => "->"
    case LArrow => "<-"
    case FatArrow => "=>"
    case Optional => "?"
    case Pipe => "|"
    case Backslash => "\\"
    case Comma => ","
    case Bang => "!"
  }

  /** `Display for Keyword`: every keyword is spelled as an identifier of at least two characters. */
  function KeywordText(kw: Keyword): (s: string)
    ensures |s| >= 2 && IsIdentStart(s[0])
    ensures forall k :: 0 <= k < |s| ==> IsIdentContinue(s[k])
    ensures IsAscii(s)
  {
    match kw
    case Fn => "fn"
    case Type => "type"
    case Import => "import"
    case Struct => "struct"
    case Enum => "enum"
    case SelfParam => "self"
    case SelfType => "Self"
    case Let => "let"
    case Match => "match"
    case With => "with"
    case As => "as"
    case If => "if"
    case Then => "then"
    case Else => "else"
    case For => "for"
    case In => "in"
    case While => "while"
    case Loop => "loop"
    case Break => "break"
    case Continue => "continue"
    case Return => "return"
  }

  /** The opening bracket of a delimiter, as `Display for Token` renders `Open`. */
  function OpenText(d: Delim): (s: string)
    ensures |s| == 1
    ensures IsAscii(s)
  {
    match d
    case Paren => "("
    case Bracket => "["
    case Brace => "{"
    case Angle => "<"
  }

  /** The closing bracket of a delimiter, as `Display for Token` renders `Close`. */
  function CloseText(d: Delim): (s: string)
    ensures |s| == 1
    ensures IsAscii(s)
  {
    match d
    case Paren => ")"
    case Bracket => "]"
    case Brace => "}"
    case Angle => ">"
  }

  /** Decimal rendering of a signed integer: a minus sign for negatives, then the digits. */
  function IntText(i: int): (s: string)
    ensures |s| >= 1
    ensures i < 0 <==> s[0] == '-'
    ensures i >= 0 ==> AllDigits(s)
  {
    if i < 0 then "-" + DecimalText(-i) else DecimalText(i)
  }

  /**
   * `Display for Token`. Strings and chars are quoted without re-escaping; an
   * error token shows the text it was made from. Floats are not rendered
   * here (their `f64` formatting is not part of this model).
   */
  function TokenText(t: Token): (s: string)
    requires !t.Float?
    ensures t.Assign? && t.compound.Some? ==> s == OpText(t.compound.value) + "="
    ensures t.Assign? && t.compound.None? ==> s == "="
    ensures t.String? ==> |s| == |t.text| + 2 && s[0] == '"' && s[|s| - 1] == '"' && s[1..|s| - 1] == t.text
    ensures t.Char? ==> |s| == 3 && s[0] == '\'' && s[1] == t.ch && s[2] == '\''
    ensures t.Indent? ==> |s| > 7 && s[..7] == "Indent " && AllDigits(s[7..]) && DigitsValue(s[7..]) == t.width
    ensures t.Error? ==> s == t.error
  {
    match t
    case Newline => "Newline"
    case Indent(n) =>
      DigitsValueOfDecimalText(n);
      "Indent " + DecimalText(n)
    case Nat(n) => IntText(n)
    case Int(i) => IntText(i)
    case String(x) => "\"" + x + "\""
    case Char(c) => "'" + [c] + "'"
    case Bool(b) => if b then "true" else "false"
    case Ident(x) => x
    case Op(op) => OpText(op)
    case Symbol(sym) => SymbolText(sym)
    case Keyword(kw) => KeywordText(kw)
    case Wildcard => "_"
    case Open(d) => OpenText(d)
    case Close(d) => CloseText(d)
    case Assign(complex) =>
      (match complex
       case Some(op) => OpText(op) + "="
       case None => "=")
    case Error(c) => c
  }

  /** The 15 operator spellings are pairwise distinct. */
  lemma OpTextInjective(a: Op, b: Op)
    ensures OpText(a) == OpText(b) ==> a == b
  {
  }

  /** The 11 symbol spellings are pairwise distinct. */
  lemma SymbolTextInjective(a: Symbol, b: Symbol)
    ensures SymbolText(a) == SymbolText(b) ==> a == b
  {
  }

  /** The 21 keyword spellings are pairwise distinct. */
  lemma KeywordTextInjective(a: Keyword, b: Keyword)
    ensures KeywordText(a) == KeywordText(b) ==> a == b
  {
  }

  /**
   * Opening and closing brackets: each delimiter's pair differs, and no two
   * delimiters share a bracket.
   */
  lemma DelimTextDistinct(a: Delim, b: Delim)
    ensures OpenText(a) != CloseText(b)
    ensures OpenText(a) == OpenText(b) ==> a == b
    ensures CloseText(a) == CloseText(b) ==> a == b
  {
  }

  /**
   * Tokens that render as a fixed word: `_`, `true`/`false` and `Newline`;
   * `Open`/`Close` render their brackets.
   */
  lemma FixedTokenTexts(b: bool, d: Delim)
    ensures TokenText(Wildcard) == "_"
    ensures TokenText(Bool(b)) == (if b then "true" else "false")
    ensures TokenText(Newline) == "Newline"
    ensures TokenText(Open(d)) == OpenText(d) && TokenText(Close(d)) == CloseText(d)
  {
  }
}
