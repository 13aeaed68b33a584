/**
 * Character classes and small text utilities used by both tokenizers.
 *
 * Identifier classes are the ASCII abstraction of Unicode XID; whitespace and
 * newline are the exact Unicode sets that `char::is_whitespace` and chumsky's
 * `text::newline` recognise. Decimal rendering and parsing stand for Rust's
 * integer `Display` and `str::parse`.
 */
module Text {

  predicate IsDigit(c: char) { '0' <= c <= '9' }

  /** Identifier start: `[A-Za-z_]`. */
  predicate IsIdentStart(c: char) { 'a' <= c <= 'z' || 'A' <= c <= 'Z' || c == '_' }

  /** Identifier continuation: `[A-Za-z0-9_]`. */
  predicate IsIdentContinue(c: char) { IsIdentStart(c) || IsDigit(c) }

  /** Unicode White_Space, as tested by `char::is_whitespace`. */
  predicate IsWhitespace(c: char) {
    '\t' <= c <= '\r' || c == ' ' || c == '\U{85}' || c == '\U{A0}' || c == '\U{1680}'
    || ('\U{2000}' <= c <= '\U{200A}') || c == '\U{2028}' || c == '\U{2029}'
    || c == '\U{202F}' || c == '\U{205F}' || c == '\U{3000}'
  }

  /** A character that starts a line break for chumsky's `newline()` ("\r\n" starts with '\r'). */
  predicate IsNewline(c: char) {
    c == '\n' || c == '\r' || c == '\U{0B}' || c == '\U{0C}' || c == '\U{85}' || c == '\U{2028}' || c == '\U{2029}'
  }

  /** True when `lit` occurs in `s` at position `i`. */
  predicate StartsWith(s: string, i: nat, lit: string) {
    i + |lit| <= |s| && s[i..i + |lit|] == lit
  }

  /** End of the longest run of identifier-continue characters starting at `i`. */
  function IdentEnd(s: string, i: nat): (j: nat)
    requires i <= |s|
    ensures i <= j <= |s|
    ensures forall k :: i <= k < j ==> IsIdentContinue(s[k])
    ensures j == |s| || !IsIdentContinue(s[j])
    decreases |s| - i
  {
    if i < |s| && IsIdentContinue(s[i]) then IdentEnd(s, i + 1) else i
  }

  /** End of the longest run of decimal digits starting at `i`. */
  function DigitsEnd(s: string, i: nat): (j: nat)
    requires i <= |s|
    ensures i <= j <= |s|
    ensures forall k :: i <= k < j ==> IsDigit(s[k])
    ensures j == |s| || !IsDigit(s[j])
    decreases |s| - i
  {
    if i < |s| && IsDigit(s[i]) then DigitsEnd(s, i + 1) else i
  }

  /** Number of bytes of `c` in UTF-8. */
  function Utf8Width(c: char): (w: nat)
    ensures 1 <= w <= 4
  {
    if c < '\U{80}' then 1 else if c < '\U{800}' then 2 else if c < '\U{10000}' then 3 else 4
  }

  /** Number of bytes of `s` in UTF-8; string offsets of the source are byte offsets. */
  function Utf8Len(s: string): (n: nat)
    ensures |s| <= n
  {
    if s == [] then 0 else Utf8Len(s[..|s| - 1]) + Utf8Width(s[|s| - 1])
  }

  /** Byte offset of character position `i` of `s`. */
  function ByteOffset(s: string, i: nat): nat
    requires i <= |s|
  {
    Utf8Len(s[..i])
  }

  /** Every character of `s` is ASCII (one UTF-8 byte). */
  predicate IsAscii(s: string) {
    forall k :: 0 <= k < |s| ==> s[k] < '\U{80}'
  }

  /** An ASCII text has as many bytes as characters. */
  lemma {:induction false} Utf8LenAscii(s: string)
    requires IsAscii(s)
    ensures Utf8Len(s) == |s|
    decreases |s|
  {
    if s != [] {
      Utf8LenAscii(s[..|s| - 1]);
    }
  }

  /** Advancing one character adds that character's UTF-8 width. */
  lemma ByteOffsetStep(s: string, j: nat)
    requires 0 < j <= |s|
    ensures ByteOffset(s, j) == ByteOffset(s, j - 1) + Utf8Width(s[j - 1])
  {
    assert s[..j][..j - 1] == s[..j - 1];
  }

  /** A later character position has a strictly larger byte offset, never past the text's length. */
  lemma {:induction false} ByteOffsetMonotone(s: string, i: nat, j: nat)
    requires i <= j <= |s|
    ensures ByteOffset(s, i) <= ByteOffset(s, j)
    ensures i < j ==> ByteOffset(s, i) < ByteOffset(s, j)
    decreases j - i
  {
    if i < j {
      ByteOffsetMonotone(s, i, j - 1);
      ByteOffsetStep(s, j);
    }
  }

  /** No character position has a byte offset past the text's UTF-8 length. */
  lemma ByteOffsetBound(s: string, i: nat)
    requires i <= |s|
    ensures ByteOffset(s, i) <= Utf8Len(s)
  {
    ByteOffsetMonotone(s, i, |s|);
    assert s[..|s|] == s;
  }

  /** Every character of `s` is a decimal digit. */
  predicate AllDigits(s: string) {
    forall k :: 0 <= k < |s| ==> IsDigit(s[k])
  }

  /** The digit character for `d < 10`. */
  function DigitChar(d: nat): (c: char)
    requires d < 10
    ensures IsDigit(c)
  {
    ['0', '1', '2', '3', '4', '5', '6', '7', '8', '9'][d]
  }

  /** The value of a digit character. */
  function DigitValue(c: char): (d: nat)
    requires IsDigit(c)
    ensures d < 10 && DigitChar(d) == c
  {
    (c as int - '0' as int) as nat
  }

  /** Decimal rendering of a natural number without leading zeros (Rust's `Display` for integers). */
  function DecimalText(n: nat): (s: string)
    ensures |s| >= 1 && AllDigits(s)
    ensures s[0] == '0' <==> n == 0
    ensures n == 0 ==> s == "0"
    decreases n
  {
    if n < 10 then [DigitChar(n)] else DecimalText(n / 10) + [DigitChar(n % 10)]
  }

  /** The value of a non-empty run of decimal digits, read left to right. */
  function DigitsValue(ds: string): nat
    requires AllDigits(ds)
  {
    if ds == [] then 0 else DigitsValue(ds[..|ds| - 1]) * 10 + DigitValue(ds[|ds| - 1])
  }

  /** Parsing a rendered number gives the number back. */
  lemma {:induction false} DigitsValueOfDecimalText(n: nat)
    ensures DigitsValue(DecimalText(n)) == n
    decreases n
  {
    var s := DecimalText(n);
    if n >= 10 {
      DigitsValueOfDecimalText(n / 10);
      assert s[..|s| - 1] == DecimalText(n / 10);
      assert DigitValue(s[|s| - 1]) == n % 10;
    } else {
      assert DigitValue(s[0]) == n;
    }
  }
}
