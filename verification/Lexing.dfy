/** The scanner (internal/lexer/lexer.go) as a function of the text that is left: what the next
    call of `next` does. Text is a sequence of characters, not of UTF-8 bytes. */
module Lexing {
  import opened Wrappers

  datatype Kind =
    | Newline | Ident | Keyword | IntLit | FloatLit | StringLit | StringInterp | RuneLit | Op | Punct | Eof

  /** E0101, E0102, E0107, E0109, E0110, E0111 and E0120. */
  datatype Code = Unexpected | Unterminated | Reserved | BadNumber | BadEscape | BadRune | StringInHole

  /** What the next step does with the text: the characters it consumes, or where it fails. */
  datatype Item = Skipped(n: nat) | NewlineItem(n: nat) | TokenItem(kind: Kind, n: nat) | Fail(code: Code, at: nat)

  /** An item that does not fail consumes a character, and no more than there are. */
  predicate Advances(r: Item, s: string) { if r.Fail? then r.at <= |s| else 1 <= r.n <= |s| }

  /** A token, or a failure. */
  predicate Yields(r: Item, s: string) { Advances(r, s) && (r.Fail? || (r.TokenItem? && !r.kind.Newline? && !r.kind.Eof?)) }

  // ---------------------------------------------------------------- characters

  predicate IsDigit(c: char) { '0' <= c <= '9' }
  predicate IsLetter(c: char) { 'a' <= c <= 'z' || 'A' <= c <= 'Z' || c == '_' }
  predicate IsHexDigit(c: char) { IsDigit(c) || 'a' <= c <= 'f' || 'A' <= c <= 'F' }
  predicate IsOctDigit(c: char) { '0' <= c <= '7' }
  predicate IsBinDigit(c: char) { c == '0' || c == '1' }
  predicate IsIdentChar(c: char) { IsLetter(c) || IsDigit(c) }
  predicate IsDigitOrUnderscore(c: char) { IsDigit(c) || c == '_' }
  predicate NotLineEnd(c: char) { c != '\n' && c != '\r' }

  /** The character at i, if the text goes that far. */
  predicate At(s: string, i: nat, c: char) { i < |s| && s[i] == c }
  predicate AtAny(s: string, i: nat, cs: string) { i < |s| && s[i] in cs }
  predicate DigitAt(s: string, i: nat) { i < |s| && IsDigit(s[i]) }
  predicate HexAt(s: string, i: nat) { i < |s| && IsHexDigit(s[i]) }
  predicate StartsWith(s: string, p: string) { |p| <= |s| && s[..|p|] == p }

  /** How many characters from the start on satisfy p. */
  function Span(s: string, p: char -> bool): (n: nat)
    ensures n <= |s| && (forall i :: 0 <= i < n ==> p(s[i])) && (n < |s| ==> !p(s[n]))
  {
    if s != "" && p(s[0]) then 1 + Span(s[1..], p) else 0
  }

  lemma {:induction false} SpanExact(s: string, p: char -> bool, n: nat)
    requires n <= |s| && (forall i :: 0 <= i < n ==> p(s[i])) && (n < |s| ==> !p(s[n]))
    ensures Span(s, p) == n
  {
    if n > 0 {
      forall i | 0 <= i < n - 1 ensures p(s[1..][i]) { assert s[1..][i] == s[i + 1]; }
      SpanExact(s[1..], p, n - 1);
    }
  }

  const KEYWORDS: set<string> := {
    "import", "type", "class", "interface", "implements", "extends", "static", "func", "let", "const", "var",
    "if", "else", "for", "in", "while", "return", "match", "try", "catch", "defer", "spawn", "scope", "select",
    "break", "continue", "true", "false", "unit", "this", "extern" }

  /** Longest first. */
  const MULTI_CHAR_OPS: seq<string> := [
    "..=", "...", "+=", "-=", "*=", "/=", "%=", "..", "==", "!=", "<=", ">=", "&&", "||", "=>", "->", "<-" ]
  const SINGLE_CHAR_OPS: string := "+-*/%=!<>|"
  const PUNCT_CHARS: string := "(){}[].,;:@"

  // ---------------------------------------------------------------- literals

  /** consumeExponent, at the e: the characters it consumes. */
  function Exponent(s: string): (n: Option<nat>)
    requires s != ""
    ensures n.Some? ==> 1 < n.value <= |s|
  {
    var k := if AtAny(s, 1, "+-") then 2 else 1;
    if DigitAt(s, k) then Some(k + Span(s[k..], IsDigit)) else None
  }

  /** intLitRadix, behind the prefix. */
  predicate RadixOk(digits: string, digitOk: char -> bool) {
    (forall c :: c in digits ==> digitOk(c) || c == '_') && exists c :: c in digits && c != '_'
  }

  function Radix(s: string, digitOk: char -> bool): (r: Item)
    requires |s| >= 2
    ensures Yields(r, s)
  {
    var n := Span(s[2..], IsIdentChar);
    if RadixOk(s[2..][..n], digitOk) then TokenItem(IntLit, 2 + n) else Fail(BadNumber, 0)
  }

  /** numberLit behind the digits, and behind the fraction if there is one. */
  function NumberEnd(s: string, n: nat, kind: Kind): (r: Item)
    requires 1 <= n <= |s| && !kind.Newline? && !kind.Eof?
    ensures Yields(r, s)
  {
    if AtAny(s, n, "eE") then
      match Exponent(s[n..]) case Some(k) => TokenItem(FloatLit, n + k) case None => Fail(BadNumber, n)
    else TokenItem(kind, n)
  }

  /** The decimal digits, and the fraction if there is one. */
  function Mantissa(s: string): (r: (nat, Kind))
    ensures r.0 <= |s| && (DigitAt(s, 0) ==> 1 <= r.0) && !r.1.Newline? && !r.1.Eof?
  {
    var n := Span(s, IsDigitOrUnderscore);
    if At(s, n, '.') && DigitAt(s, n + 1) then (n + 1 + Span(s[n + 1..], IsDigitOrUnderscore), FloatLit) else (n, IntLit)
  }

  function NumberLit(s: string): (r: Item)
    requires DigitAt(s, 0)
    ensures Yields(r, s)
  {
    if s[0] == '0' && AtAny(s, 1, "xX") then Radix(s, IsHexDigit)
    else if s[0] == '0' && AtAny(s, 1, "oO") then Radix(s, IsOctDigit)
    else if s[0] == '0' && AtAny(s, 1, "bB") then Radix(s, IsBinDigit)
    else NumberEnd(s, Mantissa(s).0, Mantissa(s).1)
  }

  datatype Part = Consumed(n: nat) | Bad(code: Code)

  /** consumeEscape, at the backslash. */
  function Escape(s: string): (r: Part)
    requires At(s, 0, '\\')
    ensures r.Consumed? ==> 2 <= r.n <= |s|
  {
    if |s| == 1 then Bad(Unterminated)
    else if s[1] in "ntr\\\"'0" then Consumed(2)
    else if s[1] == 'x' then (if HexAt(s, 2) && HexAt(s, 3) then Consumed(4) else Bad(BadEscape))
    else if s[1] == 'u' then (if HexAt(s, 2) && HexAt(s, 3) && HexAt(s, 4) && HexAt(s, 5) then Consumed(6) else Bad(BadEscape))
    else Bad(BadEscape)
  }

  /** One round of the loop of stringLit: it goes on, or the literal is over. */
  datatype Round = GoesOn(i: nat, holeDepth: nat, sawInterp: bool) | Ends(item: Item)

  /** The round at position i, holeDepth braces deep in an interpolation hole. */
  function StringRound(s: string, i: nat, holeDepth: nat, sawInterp: bool): (r: Round)
    requires 1 <= i <= |s|
    ensures if r.GoesOn? then i < r.i <= |s| else Yields(r.item, s) && (r.item.TokenItem? ==> i < r.item.n)
  {
    if i == |s| then Ends(Fail(Unterminated, 0)) else
    var c := s[i];
    if !NotLineEnd(c) then Ends(Fail(Unterminated, 0))
    else if c == '$' && holeDepth == 0 && At(s, i + 1, '{') then GoesOn(i + 2, 1, true)
    else if holeDepth > 0 then
      if c == '"' then Ends(Fail(StringInHole, i))
      else GoesOn(i + 1, if c == '{' then holeDepth + 1 else if c == '}' then holeDepth - 1 else holeDepth, sawInterp)
    else if c == '"' then Ends(TokenItem(if sawInterp then StringInterp else StringLit, i + 1))
    else if c == '\\' then
      (match Escape(s[i..]) case Consumed(n) => GoesOn(i + n, holeDepth, sawInterp) case Bad(code) => Ends(Fail(code, i)))
    else GoesOn(i + 1, holeDepth, sawInterp)
  }

  /** stringLit from position i on. */
  function StringFrom(s: string, i: nat, holeDepth: nat, sawInterp: bool): (r: Item)
    requires 1 <= i <= |s|
    ensures Yields(r, s) && (r.TokenItem? ==> i < r.n)
    decreases |s| - i
  {
    match StringRound(s, i, holeDepth, sawInterp)
    case Ends(item) => item
    case GoesOn(i', holeDepth', sawInterp') => StringFrom(s, i', holeDepth', sawInterp')
  }

  /** The closing quote of a rune literal. */
  function RuneEnd(s: string, i: nat): (r: Item) ensures Yields(r, s) { if At(s, i, '\'') then TokenItem(RuneLit, i + 1) else Fail(BadRune, 0) }

  /** runeLit. */
  function Rune(s: string): (r: Item)
    requires At(s, 0, '\'')
    ensures Yields(r, s)
  {
    if |s| == 1 then Fail(Unterminated, 0)
    else if !NotLineEnd(s[1]) || s[1] == '\'' then Fail(BadRune, 0)
    else if s[1] == '\\' then
      match Escape(s[1..]) case Consumed(n) => RuneEnd(s, 1 + n) case Bad(code) => Fail(code, 1)
    else RuneEnd(s, 2)
  }

  /** blockComment from position i on: where it ends. */
  function CommentEnd(s: string, i: nat): (r: Option<nat>)
    requires i <= |s|
    ensures r.Some? ==> i < r.value <= |s|
    decreases |s| - i
  {
    if i == |s| then None
    else if At(s, i, '*') && At(s, i + 1, '/') then Some(i + 2)
    else CommentEnd(s, i + 1)
  }

  /** The first multi-character operator, from the k-th on, that the text starts with. */
  function FirstOp(s: string, k: nat): (op: Option<string>)
    requires k <= |MULTI_CHAR_OPS|
    ensures op.Some? ==> StartsWith(s, op.value) && |op.value| >= 2
    decreases |MULTI_CHAR_OPS| - k
  {
    if k == |MULTI_CHAR_OPS| then None
    else if StartsWith(s, MULTI_CHAR_OPS[k]) then Some(MULTI_CHAR_OPS[k])
    else FirstOp(s, k + 1)
  }

  function WordKind(word: string): (k: Kind)
    ensures !k.Newline? && !k.Eof?
  {
    if word in KEYWORDS then Keyword else Ident
  }

  function IdentItem(s: string): (r: Item)
    requires s != "" && IsLetter(s[0])
    ensures Yields(r, s)
  {
    var word := s[..Span(s, IsIdentChar)];
    if StartsWith(word, "_aril") then Fail(Reserved, 0)
    else TokenItem(WordKind(word), |word|)
  }

  function Symbol(s: string): (r: Item)
    requires s != ""
    ensures Yields(r, s)
  {
    match FirstOp(s, 0)
    case Some(op) => TokenItem(Op, |op|)
    case None =>
      if s[0] in SINGLE_CHAR_OPS then TokenItem(Op, 1)
      else if s[0] in PUNCT_CHARS then TokenItem(Punct, 1)
      else Fail(Unexpected, 0)
  }

  /** next. */
  function Scan(s: string): (r: Item)
    requires s != ""
    ensures Advances(r, s) && (r.TokenItem? ==> Yields(r, s))
  {
    var c := s[0];
    if c == ' ' || c == '\t' then Skipped(1)
    else if c == '\n' then NewlineItem(1)
    else if c == '\r' then (if At(s, 1, '\n') then NewlineItem(2) else Fail(Unexpected, 0))
    else if c == '/' && At(s, 1, '/') then Skipped(Span(s, NotLineEnd))
    else if c == '/' && At(s, 1, '*') then
      (match CommentEnd(s, 2) case Some(n) => Skipped(n) case None => Fail(Unterminated, 0))
    else if IsLetter(c) then IdentItem(s)
    else if IsDigit(c) then NumberLit(s)
    else if c == '"' then StringFrom(s, 1, 0, false)
    else if c == '\'' then Rune(s)
    else Symbol(s)
  }

  // ---------------------------------------------------------------- the token stream

  datatype Token = Token(kind: Kind, lexeme: string, line: nat, col: nat)
  datatype Diag = Diag(code: Code, line: nat, col: nat)

  /** Line and column behind a text. */
  function PosAfter(t: string): (nat, nat)
    decreases |t|
  {
    if t == "" then (1, 1) else
    var (line, col) := PosAfter(t[..|t| - 1]);
    if t[|t| - 1] == '\n' then (line + 1, 1) else (line, col + 1)
  }

  function TokenAt(src: string, off: nat, kind: Kind, lexeme: string): Token
    requires off <= |src|
  {
    Token(kind, lexeme, PosAfter(src[..off]).0, PosAfter(src[..off]).1)
  }

  function DiagAt(src: string, off: nat, code: Code): Diag
    requires off <= |src|
  {
    Diag(code, PosAfter(src[..off]).0, PosAfter(src[..off]).1)
  }

  /** The steps of a run from an offset on, up to the end or to the first failure. */
  function ItemsFrom(src: string, off: nat): (items: seq<Item>)
    requires off <= |src|
    ensures Fit(src, off, items)
    decreases |src| - off
  {
    if off == |src| then [] else
    var item := Scan(src[off..]);
    if item.Fail? then [item] else [item] + ItemsFrom(src, off + item.n)
  }

  /** The item lies within the source. */
  predicate FitsAt(src: string, off: nat, item: Item) {
    if item.Fail? then off + item.at <= |src| else 1 <= item.n && off + item.n <= |src|
  }

  /** The items cover the source from an offset on. */
  predicate Fit(src: string, off: nat, items: seq<Item>)
    decreases |items|
  {
    items == [] || (FitsAt(src, off, items[0]) && if items[0].Fail? then |items| == 1 else Fit(src, off + items[0].n, items[1..]))
  }

  predicate Failed(items: seq<Item>) { items != [] && items[|items| - 1].Fail? }

  /** The token an item emits, if it does. */
  function OwnToken(src: string, off: nat, item: Item): seq<Token>
    requires FitsAt(src, off, item) && off <= |src|
  {
    match item
    case NewlineItem(_) => [TokenAt(src, off, Newline, "")]
    case TokenItem(kind, n) => [TokenAt(src, off, kind, src[off..off + n])]
    case _ => []
  }

  /** The tokens of the items, from an offset on. */
  function TokensOf(src: string, off: nat, items: seq<Item>): seq<Token>
    requires off <= |src| && Fit(src, off, items)
    decreases |items|
  {
    if items == [] || items[0].Fail? then [] else
    OwnToken(src, off, items[0]) + TokensOf(src, off + items[0].n, items[1..])
  }

  /** Where a failing run fails. */
  function DiagOf(src: string, off: nat, items: seq<Item>): Diag
    requires off <= |src| && Fit(src, off, items) && Failed(items)
    decreases |items|
  {
    if items[0].Fail? then DiagAt(src, off + items[0].at, items[0].code) else DiagOf(src, off + items[0].n, items[1..])
  }

  /** LexFile: the tokens, with the end-of-file token unless a step fails. */
  function Lex(src: string): (seq<Token>, Option<Diag>) {
    var items := ItemsFrom(src, 0);
    if Failed(items) then (TokensOf(src, 0, items), Some(DiagOf(src, 0, items)))
    else (TokensOf(src, 0, items) + [TokenAt(src, |src|, Eof, "")], None)
  }
}
