# luna front end in Dafny

This project models the front end of the luna language implementation:

- **Tokenizer.** `parse/src/lexer.rs` is the tokenizer, a chumsky grammar. Its token types and their `Display` renderings are in `parse/src/token.rs`.
- **Source cache and span.** `parse/src/span.rs` holds the `FileCache`, which memoises file reads by path, and the byte-range `Span`.
- **Arena.** `parse/src/arena.rs` is the segmented, append-only arena that stores file contents.
- **Older front end.** The token atoms of `src/lexer.rs` are modelled: the keyword and symbol tables, `string`, `bool` and the `token` ordering. So are both `Flatten` impls over token trees, and the vocabulary with `Display` of `src/token.rs`.

Modules and files:

| module | file | models |
|---|---|---|
| `Wrappers` | `wrappers.dfy` | `Option`, `Result` and ordered choice `OrElse` |
| `Text` | `text.dfy` | character classes, digit runs, decimal rendering, UTF-8 byte offsets |
| `Tokens` | `token.dfy` | `parse/src/token.rs` |
| `Lexer` | `lexer.dfy` | `parse/src/lexer.rs`, as a scanner |
| `LexerFacts` | `lexer_facts.dfy` | what `Lex` gives back for each token kind's display text, span layout, shadowed operators |
| `Arena` | `arena.dfy` | `parse/src/arena.rs`, a class over `array` segments |
| `Span` | `span.dfy` | `parse/src/span.rs`; `FileCache` is a class over the arena and a path map |
| `LegacyTokens` | `legacy_token.dfy` | `src/token.rs` |
| `LegacyLexer` | `legacy_lexer.dfy` | the atoms, tables and `Flatten` of `src/lexer.rs` |
| `LegacyFacts` | `legacy_facts.dfy` | round trips, rule ordering and flattening properties of the older front end |

### How the lexer is modelled

Each chumsky rule is a function from an input position to an optional `Lexeme`: the token, and the position after it. `choice`/`or` is ordered choice, where the first rule that matches wins. A sequence that fails after a committed `or_not` fails as a whole, so the choice moves on to its next alternative.

`NextToken` holds one token, or else the one-character `Error` fallback. `Scan` is the `repeated()` token loop, with whitespace and `#` comments skipped before each token. `Lex` adds the outer padding and the end-of-input check, and turns character positions into UTF-8 byte offsets, as chumsky's `&str` spans are.

`indent` is corrected to need at least one space (see Findings).

A comment is `#` and then everything up to the next line break. The comment body is written `newline().not().repeated()`. In chumsky 1.0, `not()` is a lookahead that consumes nothing, so as written the body makes no progress. The model reads it as meaning one non-line-break character per repetition (see Findings).

### How the arena and cache are modelled

The arena keeps its three fields:

- `next`: the free slot in the current segment;
- `current`: an `array<T>` of length `N`;
- `rest`: the retired segments.

A ghost `Contents()` lists every value in insertion order, and `Insert`, `Get` and `Rotate` are specified against it. Slot claiming is the corrected "claim `next`, rotate when full".

`FileCache` holds the arena, with segment size 8, and the path map. The file system is an object whose reads are logged, so that "no read" and "one read" can be stated.

## Model

| member | source | states |
|---|---|---|
| Tokens.Spanned | parse/src/token.rs:35-37 | The pair holds the token and the span, both unchanged |
| Tokens.OpText | parse/src/token.rs:183-203 | `Display for Op` is 1 to 3 ASCII characters; it starts with a letter exactly for `and`, `or`, `not` |
| Tokens.OpTextInjective | parse/src/token.rs:183-203 | The 15 operator spellings are pairwise distinct |
| Tokens.SymbolText | parse/src/token.rs:205-221 | `Display for Symbol` is 1 or 2 ASCII characters, never starting with a letter, digit or whitespace |
| Tokens.SymbolTextInjective | parse/src/token.rs:205-221 | The 11 symbol spellings are pairwise distinct |
| Tokens.KeywordText | parse/src/token.rs:223-249 | Every keyword displays as an ASCII identifier of at least two characters |
| Tokens.KeywordTextInjective | parse/src/token.rs:223-249 | The 21 keyword spellings are pairwise distinct |
| Tokens.OpenText | parse/src/token.rs:162-167 | An opening delimiter displays as one ASCII character |
| Tokens.CloseText | parse/src/token.rs:168-173 | A closing delimiter displays as one ASCII character |
| Tokens.DelimTextDistinct | parse/src/token.rs:162-173 | No opening bracket equals a closing one; distinct delimiters have distinct brackets |
| Tokens.IntText | parse/src/token.rs:151-152 | An integer displays with a leading `-` exactly when negative, and as digits otherwise |
| Tokens.TokenText | parse/src/token.rs:146-181 | Assign(Some(op)) displays as op's text followed by `=`, and Assign(None) as `=`. String is its content between `"` with no re-escaping; Char is `'c'`. Indent is `Indent ` followed by the decimal width, and Error is its text |
| Tokens.FixedTokenTexts | parse/src/token.rs:149-173 | Wildcard displays as `_`, Bool as `true`/`false`, Newline as `Newline`; Open/Close as their brackets |
| Text.DigitsValueOfDecimalText | parse/src/token.rs:151-152 | Reading back the decimal rendering of a number gives the number |
| Text.ByteOffsetMonotone | parse/src/lexer.rs:200 | Later character positions have strictly larger byte offsets, never past the text's byte length |
| Lexer.IntDigits | parse/src/lexer.rs:48-49 | `text::int(10)` matches exactly at a digit: `0` alone, or a non-zero digit and the whole digit run after it |
| Lexer.FloatRule | parse/src/lexer.rs:37-46 | A float consumes exactly digits, `.`, digits, and carries the two non-empty digit strings |
| Lexer.IntRule | parse/src/lexer.rs:48-55 | Matches exactly where `text::int` does and consumes an optional `i`. Gives Int(value) when the value fits in i64, and otherwise Error(digit text) |
| Lexer.ConcatOp | parse/src/lexer.rs:57 | `concat` matches exactly at `..` and gives Concat after two characters |
| Lexer.Arithmetic | parse/src/lexer.rs:59-65 | Matches one character and gives one of `+ - * / %` |
| Lexer.Comparison | parse/src/lexer.rs:67-74 | A comparison consumes at least one character |
| Lexer.Logical | parse/src/lexer.rs:76-80 | `not`/`and`/`or` start with a letter |
| Lexer.OpRule | parse/src/lexer.rs:82-88 | Gives an Op token; Op(Eq) only at `==`; `and`/`or`/`not` only at a letter |
| Lexer.AssignRule | parse/src/lexer.rs:90-96 | Ends with `=`; the compound operator is arithmetic or `..`; a bare `=` is Assign(None) |
| Lexer.SymRule | parse/src/lexer.rs:126-138 | Gives a symbol other than Dot and Bang |
| Lexer.Sym2Rule | parse/src/lexer.rs:140-146 | Gives only Dot or Bang |
| Lexer.DelimRule | parse/src/lexer.rs:148-156 | Gives Open/Close of round, square or curly brackets, never Angle |
| Lexer.IndentRule | parse/src/lexer.rs:187 | Corrected indent: matches exactly at a space, counts the spaces consumed, and always advances |
| Lexer.AsWrittenIndentRule | parse/src/lexer.rs:187 | Indent as written: always matches, and consumes nothing exactly where no space follows |
| Lexer.KeywordNamed | parse/src/lexer.rs:99-120 | A word named as a keyword is that keyword's display text |
| Lexer.KeywordNamedDisplay | parse/src/lexer.rs:99-120 | Every keyword's `Display` text is named as that keyword |
| Lexer.KeywordNamedIff | parse/src/lexer.rs:99-120 | A word names keyword k exactly when it is k's display text |
| Lexer.WordToken | parse/src/lexer.rs:99-123 | A word is Keyword(k) exactly when it is k's display text, and Wildcard exactly when it is `_`. Otherwise it is the Ident carrying exactly that word |
| Lexer.WordRule | parse/src/lexer.rs:98-124 | Matches exactly at an identifier start, consumes the whole identifier and classifies it by WordToken |
| Lexer.EscapeTable | parse/src/lexer.rs:158-166 | The escape table accepts exactly `\`, `/`, `"`, `b`, `r`, `n`, `t`. The three punctuation escapes stand for themselves and the four letters for control characters. No two escapes decode to the same character |
| Lexer.Escape | parse/src/lexer.rs:158-166 | Matches exactly a backslash followed by one of `\`, `/`, `"`, `b`, `r`, `n`, `t`, and gives the character it decodes to |
| Lexer.StringBody | parse/src/lexer.rs:175-176 | A decoded body ends just after its closing `"` and is shorter than the text it was written as |
| Lexer.StringRule | parse/src/lexer.rs:174-179 | Matches exactly at a `"` whose body decodes and closes; the token holds the decoded body |
| Lexer.CharRule | parse/src/lexer.rs:168-172 | Gives one plain character (not `\` or `'`) or one decoded escape between `'` quotes |
| Lexer.LeadingRules | parse/src/lexer.rs:191-195 | Ordered choice word, string, char, float, int, sym, assign, op, sym2, delim; a match advances |
| Lexer.RuleAt | parse/src/lexer.rs:191-198 | The whole ordered choice, with the corrected indent last; a match advances |
| Lexer.AsWrittenIndentShadowsError | parse/src/lexer.rs:187-199 | With indent as written, at a character no rule takes, the choice gives Indent(0) and consumes nothing, never reaching the error fallback |
| Lexer.NextToken | parse/src/lexer.rs:191-201 | Always advances. Where no rule matches it gives Error of that one character. It never gives Op `==`, `and`, `or` or `not` |
| Lexer.NextTokenWord | parse/src/lexer.rs:191-192 | At an identifier start the token is the word rule's |
| Lexer.NextTokenNumber | parse/src/lexer.rs:194 | At a digit the token is the float when it matches, else the int |
| Lexer.NextTokenString | parse/src/lexer.rs:193 | At `"` the token is the string rule's, else Error(`"`) |
| Lexer.NextTokenChar | parse/src/lexer.rs:193 | At `'` the token is the char rule's, else Error(`'`) |
| Lexer.NextTokenSym | parse/src/lexer.rs:195 | Where sym matches, its symbol is the token |
| Lexer.NextTokenAssign | parse/src/lexer.rs:195 | Where assign matches and sym does not, the assignment is the token |
| Lexer.NextTokenOp | parse/src/lexer.rs:195 | Where op matches at a non-letter and sym and assign do not, the operator is the token |
| Lexer.NextTokenSym2 | parse/src/lexer.rs:195 | Where sym2 matches and op does not, its symbol is the token |
| Lexer.NextTokenDelim | parse/src/lexer.rs:195 | Where delim matches, the bracket is the token |
| Lexer.LineEnd | parse/src/lexer.rs:181-182 | A comment runs up to the first line break or the end |
| Lexer.AsWrittenNotNewline | parse/src/lexer.rs:182 | `newline().not()` read as chumsky 1.0's negative lookahead: it succeeds exactly where no line break starts, and consumes nothing |
| Lexer.AsWrittenCommentStalls | parse/src/lexer.rs:181-185 | After a `#` not followed by a line break, the as-written comment body succeeds without moving, while `LineEnd` moves past the next character |
| Lexer.SkipWhitespace | parse/src/lexer.rs:207 | `padded` skips exactly the run of whitespace |
| Lexer.Skip | parse/src/lexer.rs:181-185 | The padding before a token stops at the end or at a character that is neither whitespace nor `#`. Every character it passes over is whitespace or lies in a comment: after a `#` at or after the start, with no line break between |
| Lexer.SkipFixed | parse/src/lexer.rs:181-185 | Skipping padding is idempotent |
| Lexer.Scan | parse/src/lexer.rs:203-206 | The token loop gives at most one token per character left after the padding |
| Lexer.ScanStep | parse/src/lexer.rs:203-206 | One loop step: the token after the padding, then the loop after that token |
| Lexer.ScanOrdered | parse/src/lexer.rs:200-206 | Every token is non-empty and inside the input, and ends before the next starts |
| Lexer.ScanTokenised | parse/src/lexer.rs:203-206 | Every located token is what NextToken reads at its own start |
| Lexer.ScanAt | parse/src/lexer.rs:203-206 | The k-th token is what NextToken reads at its start |
| Lexer.ScanEnds | parse/src/lexer.rs:203-208 | No tokens exactly when only padding remains. The first token starts after the leading padding, and only padding follows the last |
| Lexer.ScanGap | parse/src/lexer.rs:201-205 | Between neighbouring tokens there is only padding |
| Lexer.Spans | parse/src/lexer.rs:200 | Each token keeps its kind and gets the byte span of its text in the context source |
| Lexer.Lex | parse/src/lexer.rs:203-208 | Fails exactly when the input, after whitespace, is comments alone |
| LexerFacts.LexSpans | parse/src/lexer.rs:200-208 | Spans are non-empty, inside the input's bytes, in increasing non-overlapping order, and carry the context source |
| LexerFacts.LexTokenAt | parse/src/lexer.rs:199-206 | The k-th lexed token is what NextToken reads where that token's text starts |
| LexerFacts.NoShadowedOps | parse/src/lexer.rs:191-195 | No lexed token is Op `==`, `and`, `or` or `not` |
| LexerFacts.PaddingOnly | parse/src/lexer.rs:203-208 | Padding-only input gives no tokens when it is whitespace alone, and fails otherwise |
| LexerFacts.SingleToken | parse/src/lexer.rs:200-208 | Input that is exactly one token lexes to that token alone, spanning all its bytes |
| LexerFacts.AsciiSingleToken | parse/src/lexer.rs:200-208 | For ASCII input the same holds, with the span equal to the length |
| LexerFacts.WordRoundTrip | parse/src/lexer.rs:98-124 | An identifier lexes to the one token WordToken classifies it as |
| LexerFacts.KeywordRoundTrip | parse/src/lexer.rs:99-120 | Every keyword's display text lexes back to that keyword |
| LexerFacts.WildcardExample | parse/src/lexer.rs:121 | `_` lexes as Wildcard |
| LexerFacts.AndIsIdent | parse/src/lexer.rs:98-122 | `and` lexes as Ident, because word precedes op |
| LexerFacts.SymbolToken | parse/src/lexer.rs:126-146 | Every symbol's display text is read whole as that symbol |
| LexerFacts.SymbolRoundTrip | parse/src/lexer.rs:126-146 | Every symbol's display text lexes back to that symbol (longer spellings first: `::`, `->`, `=>`) |
| LexerFacts.OpRoundTrip | parse/src/lexer.rs:57-88 | Every operator except `==`, `and`, `or`, `not` lexes back from its display text |
| LexerFacts.AssignRoundTrip | parse/src/lexer.rs:90-96 | Each compound assignment lexes back from its display text |
| LexerFacts.PlainAssign | parse/src/lexer.rs:90-96 | `=` lexes as Assign(None) |
| LexerFacts.EqualsToken | parse/src/lexer.rs:90-96 | A `=` not followed by `>` is a plain assignment of one character |
| LexerFacts.DoubleEquals | parse/src/lexer.rs:191-195 | `==` lexes as two Assign(None), never as Op(Eq) |
| LexerFacts.AddAssignToken | parse/src/lexer.rs:90-96 | `+=` is Assign(Some(Add)), read before the `+` operator |
| LexerFacts.LetterToken | parse/src/lexer.rs:98-122 | A one-letter word is the Ident of that letter |
| LexerFacts.OpenRoundTrip | parse/src/lexer.rs:148-156 | Round, square and curly opening brackets lex back to their delimiters |
| LexerFacts.CloseRoundTrip | parse/src/lexer.rs:148-156 | Round, square and curly closing brackets lex back to their delimiters |
| LexerFacts.IntRoundTrip | parse/src/lexer.rs:48-55 | The decimal text of n, with or without `i`, lexes to Int(n) if n fits in i64 and to Error(digits) otherwise |
| LexerFacts.DigitToken | parse/src/lexer.rs:48-55 | A digit not followed by a digit or `i`, even before a dot that no digit follows, is the integer it spells |
| LexerFacts.IntBeforeDot | parse/src/lexer.rs:37-55 | A number before a `.` that no digit follows is an int, not a float |
| LexerFacts.DotToken | parse/src/lexer.rs:140-146 | A `.` that does not start `..` is Symbol(Dot) |
| LexerFacts.ConcatToken | parse/src/lexer.rs:57 | `..` without a following `=` is Op(Concat) |
| LexerFacts.LeadingZeroFraction | parse/src/lexer.rs:37-46 | `0.0d` lexes as Float(0, 0) then Int(d), because `text::int` reads a lone leading `0` |
| LexerFacts.StringBodyEscaped | parse/src/lexer.rs:174-176 | The string body reads escaped content and its closing quote back to that content |
| LexerFacts.StringToken | parse/src/lexer.rs:174-179 | At a `"` followed by escaped content and a closing `"`, anywhere in the input, the token is the String of that content and ends after the closing quote |
| LexerFacts.StringRoundTrip | parse/src/lexer.rs:158-179 | Any content, written with escapes and quoted, lexes back to String of that content |
| LexerFacts.StringDisplayRoundTrip | parse/src/lexer.rs:174-179 | Content that needs no escape lexes back from its `Display` |
| LexerFacts.StringFailure | parse/src/lexer.rs:174-179 | An unclosed literal or a bad escape gives Error(`"`) of the quote alone |
| LexerFacts.CharRoundTrip | parse/src/lexer.rs:168-172 | A char other than `\` and `'` lexes back from its `Display`, spanning its bytes |
| LexerFacts.CharEscapeRoundTrip | parse/src/lexer.rs:158-172 | An escaped char literal lexes to the character its escape decodes to |
| LexerFacts.UnrecognisedChar | parse/src/lexer.rs:199 | A character no rule starts with becomes Error of that one character |
| LexerFacts.CommentOnly | parse/src/lexer.rs:181-185 | A lone comment fails to lex; blank input is no tokens |
| Arena.Default | parse/src/arena.rs:20-28 | The default id is segment 0, slot 0 |
| Arena.Clone | parse/src/arena.rs:30-40 | Clone copies segment and slot: the clone equals the original |
| Arena.Cmp | parse/src/arena.rs:12-16 | The derived `Ord`: Equal exactly when segment and slot agree, Less exactly when the segment is smaller, or equal with a smaller slot |
| Arena.CmpIsTotalOrder | parse/src/arena.rs:13-14 | The derived comparison is Equal exactly for equal ids and is antisymmetric and transitive. It is lexicographic on (seg, idx) |
| Arena.AsWrittenClaim | parse/src/arena.rs:58-72 | As written, the claimed slot is `next + 1`, and a rotation happens exactly when `next + 1 > N` |
| Arena.AsWrittenClaimOutOfBounds | parse/src/arena.rs:58-78 | As written, from `next = N - 1` the slot is N and the counter becomes N + 1. From `next = N` it rotates and still gives slot N + 1. Slot 0 is never used |
| Arena.AsWrittenFifthInsertOfEight | parse/src/arena.rs:58-72 | With N = 8, the fifth insert into a fresh arena writes slot 9 |
| Arena.Claim | parse/src/arena.rs:58-72 | Corrected claim: the slot is below N and equals `next`. When full, it rotates first and claims slot 0 |
| Arena.Arena.ContentsLength | parse/src/arena.rs:4-11 | There are N values per retired segment and `next` in the current one |
| Arena.Arena.IssuedIff | parse/src/arena.rs:80-94 | An id was handed out exactly when its slot is inside a segment and its ordinal is below the number of values |
| Arena.Arena.constructor | parse/src/arena.rs:49-55 | A new arena has one fresh empty segment, no retired ones and a zero counter |
| Arena.Arena.Get | parse/src/arena.rs:87-94 | Reads from `current` when the segment is the count of retired ones, and from that retired segment otherwise. The value is the Ordinal(id)-th value inserted |
| Arena.Arena.Rotate | parse/src/arena.rs:62-65 | Appends the full current segment to `rest` and installs a fresh segment with the counter at 0; the contents are unchanged |
| Arena.Arena.Insert | parse/src/arena.rs:57-85 | Appends the value. The id is the segment count after any rotation and the claimed slot, and was not issued before. Every earlier id still reads its own value |
| Arena.Arena.Place | parse/src/arena.rs:73-79 | Writing the value into the free slot of the current segment appends it to the contents, advances `next` by one and keeps the segments; the id names that slot |
| Arena.InsertRange | parse/src/arena.rs:57-96 | Inserting `0` to `n - 1` into an empty arena of any segment size gives `n` ids, each issued and reading back the value inserted with it |
| Arena.RolloverScenario | parse/src/arena.rs:57-94 | Eleven inserts with N = 4 fill three segments, and every id reads back its own value |
| Span.New | parse/src/span.rs:69-75 | Stores start, end and source unchanged; the `ariadne` and `chumsky` accessors return them |
| Span.Span.Start | parse/src/span.rs:85-87 | `ariadne::Span::start` returns the stored start |
| Span.Span.End | parse/src/span.rs:89-91 | `ariadne::Span::end` returns the stored end |
| Span.Span.Source | parse/src/span.rs:81-83 | `ariadne::Span::source` returns the stored source id |
| Span.Span.Context | parse/src/span.rs:107-109 | `chumsky::span::Span::context` returns the same id as `source` |
| Span.FromRange | parse/src/span.rs:99-105 | The chumsky constructor stores context, start and end unchanged; the accessors return them |
| Span.SpanRebuild | parse/src/span.rs:68-118 | Rebuilding a span from its accessors, with `Span::new` or with the chumsky constructor, gives the same span |
| Span.FileSystem.ReadToString | parse/src/span.rs:36 | A read yields what the file system holds (NotFound if absent) and is logged |
| Span.TableAdd | parse/src/span.rs:37-40 | Recording a new path at the next arena slot keeps the table consistent |
| Span.TableInjective | parse/src/span.rs:32-41 | Distinct paths in the table map to distinct ids |
| Span.FileCache.constructor | parse/src/span.rs:19-24 | A new cache has an empty table over an empty arena |
| Span.FileCache.Get | parse/src/span.rs:26-28 | An issued id gives the content read for every path that maps to it |
| Span.FileCache.Resolve | parse/src/span.rs:30-42 | A known path gives its stored id with no read and no change. A new path is read once. On success the content is appended and the new id recorded. On failure the error is returned and table and arena are unchanged. Entries are never removed or changed |
| Span.FileCache.Record | parse/src/span.rs:37-40 | Stores the content as the next arena value and maps the path to its id |
| Span.FileCache.ResolveAndGet | parse/src/span.rs:44-47 | Gives the content behind the resolved id and passes on read errors. It succeeds exactly when the path is known or readable. Table, arena and read log change exactly as in `Resolve`: nothing changes for a known path; a new path is read once; on success its content is appended and its id recorded; on failure table and arena are unchanged |
| Span.FileCache.Fetch | parse/src/span.rs:51-54 | Succeeds exactly when `resolve_and_get` does, with the same content, and boxes the same error. It changes table, arena and read log exactly as `resolve_and_get` does |
| Span.MemoisationScenario | parse/src/span.rs:30-42 | Resolving a readable path twice gives the identical id and reads the file once |
| LegacyTokens.SymbolText | src/token.rs:62-106 | Each symbol displays as 1 to 3 ASCII characters, never starting with a letter, digit or `"` |
| LegacyTokens.SymbolNamedText | src/token.rs:62-106 | Every symbol's spelling reads back as that symbol |
| LegacyTokens.SymbolTextInjective | src/token.rs:62-106 | The 40 symbol spellings are pairwise distinct |
| LegacyTokens.DelimText | src/token.rs:117-126 | A delimiter displays as its capitalised name |
| LegacyTokens.DelimTextInjective | src/token.rs:117-126 | "Paren", "Bracket", "Brace" and "Block" are distinct |
| LegacyTokens.KeywordText | src/token.rs:149-170 | Every keyword displays as a lower-case identifier |
| LegacyTokens.KeywordTextInjective | src/token.rs:149-170 | The 17 keyword spellings are pairwise distinct |
| LegacyLexer.FirstPrefixFrom | src/lexer.rs:56-80 | `choice` over `just`s: the first table entry whose spelling occurs at the position, with none before it matching |
| LegacyLexer.KeywordNamed | src/lexer.rs:32-53 | A word `kw()` accepts is that keyword's display text |
| LegacyLexer.KeywordTableSpellings | src/lexer.rs:33-51 | Every `kw()` row spells its keyword as `Display` does |
| LegacyLexer.KeywordTableComplete | src/lexer.rs:33-51 | Every keyword has a row |
| LegacyLexer.KeywordNamedIff | src/lexer.rs:32-53 | `kw()` accepts a whole word as keyword k exactly when it is k's display text |
| LegacyLexer.PunctuationSpellings | src/lexer.rs:56-62 | Every punctuation alternative spells its symbol as `Display` does |
| LegacyLexer.OperatorSpellings | src/lexer.rs:63-80 | Every operator alternative spells its plain symbol as `Display` does |
| LegacyLexer.Select | src/lexer.rs:83-87 | `select!(a, b)` gives the compound symbol `a` when the `=` was present, and the plain `b` otherwise |
| LegacyLexer.SelectDisplay | src/lexer.rs:81-106 | The selected symbol displays as the operator spelling followed by `=` exactly when the `=` was present |
| LegacyLexer.CompoundDisplay | src/lexer.rs:88-104 | Each compound symbol displays as its base symbol followed by `=` |
| LegacyLexer.SymAt | src/lexer.rs:55-110 | `sym()` advances and gives a symbol whose display text occurs at the position |
| LegacyLexer.QuoteFrom | src/lexer.rs:154-157 | The first `"` at or after a position |
| LegacyLexer.StringAt | src/lexer.rs:153-159 | Matches exactly at a `"` with a later `"`. The Str holds every character in between, none of them a `"` |
| LegacyLexer.WordEnd | src/lexer.rs:27-30 | An identifier extends over the whole run of identifier characters |
| LegacyLexer.KwAt | src/lexer.rs:32-47 | `kw()` matches exactly at an identifier that the keyword table names, consumes the whole identifier and gives the keyword whose spelling it is |
| LegacyLexer.BoolAt | src/lexer.rs:161-166 | `bool()` matches exactly at the whole identifier `true` or `false` and gives Bool of which it is |
| LegacyLexer.IdentAt | src/lexer.rs:27-30 | `ident()` matches exactly at an identifier start and gives Ident of the whole identifier |
| LegacyLexer.TokenAt | src/lexer.rs:168-179 | Every identifier is consumed whole. An Ident is never a keyword, `true` or `false`, and carries its exact text. No atom gives a delimiter |
| LegacyLexer.Flat | src/lexer.rs:190-207 | A leaf flattens to itself. A tree flattens to a zero-width Open at its start, then at least one token per child, then its Close |
| LegacyLexer.FlatAll | src/lexer.rs:209-217 | A sequence of trees flattens to at least one token per tree |
| LegacyLexer.FlattenTree | src/lexer.rs:190-207 | Flattening a spanned tree gives Flat of it: a leaf is itself. A tree is a zero-width Open at its start, then its children flattened in order. A zero-width Close follows, at the end of the last child, or at the tree's end when it has none |
| LegacyLexer.FlattenAll | src/lexer.rs:209-217 | Flattening a vector gives the concatenation of its trees' flattenings |
| LegacyLexer.FlatAllConcat | src/lexer.rs:209-217 | Flattening distributes over concatenation |
| LegacyLexer.FlatNest | src/lexer.rs:194-204 | A flattened tree of lexed tokens leaves the delimiter stack as it found it |
| LegacyLexer.FlatAllNest | src/lexer.rs:209-216 | The same for a sequence of trees |
| LegacyLexer.FlatBalanced | src/lexer.rs:190-207 | A flattened tree has balanced, properly nested Open/Close markers |
| LegacyLexer.FlatAllBalanced | src/lexer.rs:209-217 | A flattened vector has balanced, properly nested Open/Close markers |
| LegacyFacts.KeywordRoundTrip | src/lexer.rs:32-53 | Every keyword's display text is read back as that keyword |
| LegacyFacts.KeywordPrefixIsIdent | src/lexer.rs:168-172 | `iffy` is an identifier; in `if x`, `if` is the keyword |
| LegacyFacts.BoolRoundTrip | src/lexer.rs:161-166 | `true` and `false` lex as Bool, ahead of `ident` |
| LegacyFacts.NotWordOrString | src/lexer.rs:168-172 | At a character that starts no word or string, `token()` is `sym()` |
| LegacyFacts.LongestPunctuationFirst | src/lexer.rs:56-62 | `::`, `->`, `=>` are read before `:`, `-`, `=` |
| LegacyFacts.ConcatIsDot | src/lexer.rs:56-78 | `..` and `..=` begin with Dot, because `.` precedes `..` |
| LegacyFacts.AndMatchesBitAnd | src/lexer.rs:56-71 | No punctuation matches `&&`; the first operator that does is `&` |
| LegacyFacts.LogicalAndIsBitwise | src/lexer.rs:63-96 | `&&` begins with a one-character BitAnd |
| LegacyFacts.StringRoundTrip | src/lexer.rs:153-159 | Quoted text without `"` lexes as Str of exactly that text |
| LegacyFacts.NoEscapes | src/lexer.rs:153-159 | A backslash does not protect a quote |
| LegacyFacts.FlatLeaf | src/lexer.rs:193 | A leaf flattens to exactly itself |
| LegacyFacts.FlatZeroWidth | src/lexer.rs:194-204 | Every Open and Close a flattened tree holds is zero-width |
| LegacyFacts.FlatAllZeroWidth | src/lexer.rs:209-216 | The same for a sequence of trees |
| LegacyFacts.LexedLeafIsPlain | src/lexer.rs:168-179 | A token `token()` produces is never a delimiter |
| LegacyFacts.FlatEmptyTree | src/lexer.rs:194-204 | An empty tree flattens to Open at its start and Close at its end |

## Left out

- Floating point: the `f64` parse of a float and its `Error` branch (parse/src/lexer.rs:41-45) are not modelled. A float token carries its two digit strings. Float `Display` is left out too, so `Tokens.TokenText` requires a non-float token.
- Interning (`Intern`, `lasso::Rodeo`) is left out: an interned string is the string itself.
- Unicode identifier classes are not modelled: identifiers are ASCII `[A-Za-z_][A-Za-z0-9_]*`. Whitespace is the Unicode White_Space list that `char::is_whitespace` tests.
- The unused `newline` rule (parse/src/lexer.rs:189) is left out: the token choice never uses it. The source's test (parse/src/lexer.rs:222-241) is file I/O that ends in `assert!(false)`.
- `Lexer::lex` and `print_tokens` are not modelled: they are a thin call into chumsky and printing to stdout.
- `LexerFacts.DigitToken`: the examples `1..2`, `x += 1` and `"x" @ "y"` are stated token by token, through `DigitToken`, `DotToken`, `ConcatToken`, `AddAssignToken` and `LetterToken` at each position. For `"x" @ "y"` this is `LexerFacts.StringToken` at each quote and `LexerFacts.UnrecognisedChar` at the `@`. They are not stated as whole-input `Lex` results, because three-token inputs are too costly to prove.
- `LexerFacts.LeadingZeroFraction`: states the leading-zero split for `0.0d` with any digit `d`, which covers `0.05`.
- `Tokens.TokenText`: String and Char render their content without re-escaping. So a string holding `"` or `\` does not lex back from its display. `LexerFacts.StringDisplayRoundTrip` needs escape-free content for this reason.
- The arena's atomics, memory orderings and the `fetch_update` retry loop are not modelled: the model is single-threaded and runs the closure once. `boxcar::Vec`, `alloc` and `Drop` (parse/src/arena.rs:97-118) are left out, and segments are Dafny arrays.
- `Arena.Arena.Insert`: ids hold unbounded naturals. The source's `as u32` truncation of the segment and slot numbers, past 2^32 segments, is not modelled.
- The `RwLock` around the path table is left out: `Resolve` is one atomic step.
- `std::fs::read_to_string` is modelled as the `FileSystem` object: a map from path to content or error, plus a log of reads.
- The ariadne `display` (parse/src/span.rs:56-58) is left out: it is rendering.
- The older `lexer()` with `semantic_indentation` is not part of this model: `crate::indent` is not available. The older numeric atoms (`int`, `int_hex`, `int_bin`, `int_oct`, `float`, `float_scientific`) are left out too, so `LegacyLexer.TokenAt` is the `token()` choice up to `ident`.
- `Lexer.Comparison`, `Lexer.Logical`: each is stated only to advance (and `Logical` to start at a letter). Which of their operators `Lex` can reach is stated by `LexerFacts.NoShadowedOps` and `LexerFacts.OpRoundTrip`.
- `LegacyLexer.SymAt`: states that the symbol it gives is spelled at the position, not that this holds only then.
- The older front end has no whole-table symbol round trip. `..`, `..=`, `&&` and `||` cannot be produced from their display text, because `.` and `&` are tried first. `LegacyFacts.ConcatIsDot` and `LegacyFacts.LogicalAndIsBitwise` show this.
- src/bump.rs, src/ast.rs, src/parser.rs and src/main.rs are left out: they hold allocator glue, type declarations, stubs and a demo entry point.

## Findings

| source | as written | input that shows it | evidently intended | confidence | as-written member | corrected member |
|---|---|---|---|---|---|---|
| parse/src/arena.rs:58-72 | `fetch_add(1)` and then `fetch_update` both advance `next`, so each insert moves it by 2 and uses `next + 1` as the slot. On rollover, the pre-update value `v > N` is used as the slot | The fifth insert into a fresh `Arena<_, 8>` writes slot 9 of an 8-slot segment. From `next = N - 1` the claim is slot N | Claim slot `next` and advance by one. When the segment is full, rotate and claim slot 0 of the new segment | not executed | Arena.AsWrittenClaim, Arena.AsWrittenClaimOutOfBounds, Arena.AsWrittenFifthInsertOfEight | Arena.Claim, Arena.Arena.Insert |
| parse/src/lexer.rs:187 | `just(' ').repeated().count()` also matches zero spaces | At `@`, or any character no earlier rule takes, indent gives Indent(0) and consumes nothing. The error fallback (:199) is then never reached, and the token loop (:205) makes no progress. The same happens at the end of every input, the empty input included | Indent needs at least one space, so every token advances | not executed | Lexer.AsWrittenIndentRule, Lexer.AsWrittenIndentShadowsError | Lexer.IndentRule, Lexer.RuleAt |
| parse/src/lexer.rs:182 | The comment body is `newline().not().repeated()`, and in chumsky 1.0 `not()` consumes nothing, so the repetition makes no progress | `#`: after the `#`, the body succeeds again and again at the same position. Chumsky's `repeated()` panics on this in debug builds and otherwise does not stop | Consume any character up to the line break, as in `any().and_is(newline().not()).repeated()` | not executed; rests on `not()` being chumsky 1.0's zero-width lookahead | Lexer.AsWrittenNotNewline, Lexer.AsWrittenCommentStalls | Lexer.LineEnd, Lexer.Skip |
