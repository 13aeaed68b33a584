/**
 * The token vocabulary of the older front end, src/token.rs, and its
 * `Display` rendering. Interned strings (`Spur`) are the strings themselves.
 */
module LegacyTokens {
  import opened Wrappers
  import opened Text

  /** A 64-bit unsigned integer, the payload of `Token::Int`. */
  type U64 = x: int | 0 <= x <= 0xFFFF_FFFF_FFFF_FFFF

  datatype Symbol =
    | Colon | DoubleColon | Dot | Comma | Arrow | FatArrow
    | Plus | Minus | Times | Divide | Modulo | Assign | Optional | Bang | Concat
    | And | Or | BitAnd | BitOr | Xor | LShift | RShift
    | Eq | Neq | Lt | Gt | Leq | Geq
    | PlusEq | MinusEq | TimesEq | DivideEq | ModuloEq | ConcatEq
    | BitAndEq | BitOrEq | XorEq | LShiftEq | RShiftEq | InitAssign

  datatype Delim = Paren | Bracket | Brace | Block

  datatype Keyword =
    | Fn | Pub | Import | Struct | Trait | Impl | For | In | If | Else
    | While | Loop | Break | Continue | Return | Global | Let

  datatype Token =
    | Ident(name: string)
    | Int(value: U64)
    /** The text of an `f64` literal; floats are not read by this model. */
    | Float(text: string)
    | Str(text: string)
    | Open(open: Delim)
    | Close(close: Delim)
    | Symbol(sym: Symbol)
    | Keyword(kw: Keyword)
    | Bool(flag: bool)

  /** `Display for Symbol`: one to three punctuation characters. */
  function SymbolText(sym: Symbol): (s: string)
    ensures 1 <= |s| <= 3
    ensures IsAscii(s) && !IsIdentStart(s[0]) && !IsDigit(s[0]) && s[0] != '"'
  {
    match sym
    case Colon => ":"
    case DoubleColon => "::"
    case Dot => "."
    case Comma => ","
    case Arrow => "->"
    case FatArrow => "=>"
    case Plus => "+"
    case Minus => "-"
    case Times => "*"
    case Divide => "/"
    case Modulo => "%"
    case Assign => "="
    case Optional => "?"
    case Bang => "!"
    case Concat => ".."
    case And => "&&"
    case Or => "||"
    case BitAnd => "&"
    case BitOr => "|"
    case Xor => "^"
    case LShift => "<<"
    case RShift => ">>"
    case Eq => "=="
    case Neq => "!="
    case Lt => "<"
    case Gt => ">"
    case Leq => "<="
    case Geq => ">="
    case PlusEq => "+="
    case MinusEq => "-="
    case TimesEq => "*="
    case DivideEq => "/="
    case ModuloEq => "%="
    case ConcatEq => "..="
    case BitAndEq => "&="
    case BitOrEq => "|="
    case XorEq => "^="
    case LShiftEq => "<<="
    case RShiftEq => ">>="
    case InitAssign => "?="
  }

  /** `Display for Delim`: the delimiter's name. */
  function DelimText(d: Delim): (s: string)
    ensures |s| >= 5 && 'A' <= s[0] <= 'Z'
  {
    match d
    case Paren => "Paren"
    case Bracket => "Bracket"
    case Brace => "Brace"
    case Block => "Block"
  }

  /** `Display for Keyword`: every keyword is spelled as a lower-case identifier. */
  function KeywordText(kw: Keyword): (s: string)
    ensures |s| >= 2 && IsIdentStart(s[0])
    ensures forall k :: 0 <= k < |s| ==> 'a' <= s[k] <= 'z'
  {
    match kw
    case Fn => "fn"
    case Pub => "pub"
    case Import => "import"
    case Struct => "struct"
    case Trait => "trait"
    case Impl => "impl"
    case For => "for"
    case In => "in"
    case If => "if"
    case Else => "else"
    case While => "while"
    case Loop => "loop"
    case Break => "break"
    case Continue => "continue"
    case Return => "return"
    case Global => "global"
    case Let => "let"
  }

  /** Reads a symbol's spelling back, character by character. */
  function SymbolNamed(s: string): Option<Symbol>
  {
    if |s| == 1 then
      match s[0]
      case ':' => Some(Colon)
      case '.' => Some(Dot)
      case ',' => Some(Comma)
      case '+' => Some(Plus)
      case '-' => Some(Minus)
      case '*' => Some(Times)
      case '/' => Some(Divide)
      case '%' => Some(Modulo)
      case '=' => Some(Assign)
      case '?' => Some(Optional)
      case '!' => Some(Bang)
      case '&' => Some(BitAnd)
      case '|' => Some(BitOr)
      case '^' => Some(Xor)
      case '<' => Some(Lt)
      case '>' => Some(Gt)
      case _ => None
    else if |s| == 2 && s[1] == '=' then
      match s[0]
      case '=' => Some(Eq)
      case '!' => Some(Neq)
      case '<' => Some(Leq)
      case '>' => Some(Geq)
      case '+' => Some(PlusEq)
      case '-' => Some(MinusEq)
      case '*' => Some(TimesEq)
      case '/' => Some(DivideEq)
      case '%' => Some(ModuloEq)
      case '&' => Some(BitAndEq)
      case '|' => Some(BitOrEq)
      case '^' => Some(XorEq)
      case '?' => Some(InitAssign)
      case _ => None
    else if |s| == 2 then
      match (s[0], s[1])
      case (':', ':') => Some(DoubleColon)
      case ('-', '>') => Some(Arrow)
      case ('=', '>') => Some(FatArrow)
      case ('.', '.') => Some(Concat)
      case ('&', '&') => Some(And)
      case ('|', '|') => Some(Or)
      case ('<', '<') => Some(LShift)
      case ('>', '>') => Some(RShift)
      case _ => None
    else if |s| == 3 && s[2] == '=' then
      match (s[0], s[1])
      case ('.', '.') => Some(ConcatEq)
      case ('<', '<') => Some(LShiftEq)
      case ('>', '>') => Some(RShiftEq)
      case _ => None
    else None
  }

  /** Every symbol's spelling reads back as that symbol. */
  lemma SymbolNamedText(sym: Symbol)
    ensures SymbolNamed(SymbolText(sym)) == Some(sym)
  {
  }

  /** The 40 symbol spellings are pairwise distinct. */
  lemma SymbolTextInjective(a: Symbol, b: Symbol)
    ensures SymbolText(a) == SymbolText(b) ==> a == b
  {
    SymbolNamedText(a);
    SymbolNamedText(b);
  }

  /** The four delimiter names are pairwise distinct. */
  lemma DelimTextInjective(a: Delim, b: Delim)
    ensures DelimText(a) == DelimText(b) ==> a == b
  {
  }

  /** The 17 keyword spellings are pairwise distinct. */
  lemma KeywordTextInjective(a: Keyword, b: Keyword)
    ensures KeywordText(a) == KeywordText(b) ==> a == b
  {
  }
}
