/** What the kind of a token means (internal/lexer/lexer.go, lang-spec/grammar.ebnf), said without
    the scanner: every token text belongs to its kind, and every text that does is scanned as one. */
module TokenKinds {
  import opened Wrappers
  import opened Lexing
  import opened LexingProofs

  // ---------------------------------------------------------------- words

  predicate Letter(c: char) { 'a' <= c <= 'z' || 'A' <= c <= 'Z' || c == '_' }
  predicate Digit(c: char) { '0' <= c <= '9' }
  predicate HexDigit(c: char) { '0' <= c <= '9' || 'a' <= c <= 'f' || 'A' <= c <= 'F' }

  const RESERVED_WORDS: set<string> := {
    "import", "type", "class", "interface", "implements", "extends", "static", "func", "let", "const", "var",
    "if", "else", "for", "in", "while", "return", "match", "try", "catch", "defer", "spawn", "scope", "select",
    "break", "continue", "true", "false", "unit", "this", "extern" }

  /** A letter, followed by letters and digits. */
  predicate IsName(w: string) { w != "" && Letter(w[0]) && forall c :: c in w ==> Letter(c) || Digit(c) }

  lemma KeywordsAreNames(w: string)
    requires w in RESERVED_WORDS
    ensures IsName(w) && !StartsWith(w, "_aril")
  {
  }

  lemma SameKeywords()
    ensures KEYWORDS == RESERVED_WORDS
  {
  }

  lemma NameSpan(w: string)
    requires w != "" && IsLetter(w[0])
    ensures IsName(w) <==> Span(w, IsIdentChar) == |w|
  {
    if IsName(w) {
      forall i | 0 <= i < |w| ensures IsIdentChar(w[i]) { assert w[i] in w; }
      SpanExact(w, IsIdentChar, |w|);
    }
  }

  lemma WordsExactly(w: string, k: Kind)
    requires w != "" && IsLetter(w[0])
    ensures IdentItem(w) == TokenItem(k, |w|) <==>
            IsName(w) && !StartsWith(w, "_aril") && k == if w in RESERVED_WORDS then Keyword else Ident
  {
    hide Span;
    NameSpan(w);
    SameKeywords();
    var n := Span(w, IsIdentChar);
    if n == |w| { assert w[..n] == w; }
  }

  // ---------------------------------------------------------------- numbers

  /** A digit, followed by digits and underscores. */
  predicate IsDecimal(w: string) { w != "" && Digit(w[0]) && forall c :: c in w ==> Digit(c) || c == '_' }

  /** A prefix, then digits of its radix and underscores, at least one digit among them. */
  predicate IsPrefixed(w: string) {
    && |w| >= 2 && w[0] == '0' && (exists c :: c in w[2..] && c != '_')
    && (forall c :: c in w[2..] ==>
          || c == '_'
          || (w[1] in "xX" && HexDigit(c)) || (w[1] in "oO" && '0' <= c <= '7') || (w[1] in "bB" && (c == '0' || c == '1')))
  }

  predicate IsFraction(f: string) { f != "" && f[0] == '.' && IsDecimal(f[1..]) }

  /** An e, a sign or none, and digits. */
  predicate IsExponent(e: string) {
    && |e| >= 2 && e[0] in "eE"
    && var digits := if e[1] in "+-" then e[2..] else e[1..];
       digits != "" && forall c :: c in digits ==> Digit(c)
  }

  predicate IsInteger(w: string) { IsDecimal(w) || IsPrefixed(w) }

  /** A decimal with a fraction, an exponent, or both. */
  ghost predicate IsFloat(w: string) { exists a, f, e :: IsFloatOf(w, a, f, e) }

  predicate IsFloatOf(w: string, a: string, f: string, e: string) {
    w == a + f + e && IsDecimal(a) && (f == "" || IsFraction(f)) && (e == "" || IsExponent(e)) && (f != "" || e != "")
  }

  lemma DecimalSpan(a: string, rest: string)
    requires IsDecimal(a) && (rest != "" ==> !IsDigitOrUnderscore(rest[0]))
    ensures Span(a + rest, IsDigitOrUnderscore) == |a|
  {
    var s := a + rest;
    forall i | 0 <= i < |a| ensures IsDigitOrUnderscore(s[i]) { assert a[i] in a; }
    SpanExact(s, IsDigitOrUnderscore, |a|);
  }

  lemma SpanIsDecimal(s: string)
    requires DigitAt(s, 0)
    ensures IsDecimal(s[..Span(s, IsDigitOrUnderscore)])
  {
  }

  lemma ExponentReads(e: string, rest: string)
    requires IsExponent(e) && (rest != "" ==> !IsDigit(rest[0]))
    ensures Exponent(e + rest) == Some(|e|)
  {
    var s := e + rest;
    var k := if e[1] in "+-" then 2 else 1;
    var digits := e[k..];
    assert digits == if e[1] in "+-" then e[2..] else e[1..];
    assert forall c :: c in digits ==> Digit(c);
    assert s[1] == e[1] && s[k..] == digits + rest && s[k] == digits[0] && digits[0] in digits;
    forall i | 0 <= i < |digits| ensures IsDigit(s[k..][i]) { assert s[k..][i] == digits[i] && digits[i] in digits; }
    SpanExact(s[k..], IsDigit, |digits|);
  }

  lemma ExponentIs(s: string)
    requires AtAny(s, 0, "eE") && Exponent(s).Some?
    ensures IsExponent(s[..Exponent(s).value])
  {
    var k, n := if AtAny(s, 1, "+-") then 2 else 1, Exponent(s).value;
    var e := s[..n];
    assert e[0] == s[0] && e[1] == s[1];
    var m := Span(s[k..], IsDigit);
    assert s[k..][0] == s[k];
    assert m >= 1;
    assert e[k..] == s[k..][..m];
  }

  lemma RadixExactly(w: string, digitOk: char -> bool)
    requires |w| >= 2 && forall c :: digitOk(c) ==> IsIdentChar(c)
    ensures Radix(w, digitOk) == TokenItem(IntLit, |w|) <==>
            (forall c :: c in w[2..] ==> digitOk(c) || c == '_') && exists c :: c in w[2..] && c != '_'
  {
    var body := w[2..];
    var n := Span(body, IsIdentChar);
    if n == |body| { assert body[..n] == body; }
    if forall c :: c in body ==> digitOk(c) || c == '_' {
      forall i | 0 <= i < |body| ensures IsIdentChar(body[i]) { assert body[i] in body; }
      SpanExact(body, IsIdentChar, |body|);
    }
  }

  lemma PrefixedExactly(w: string, k: Kind)
    requires IsRadix(w)
    ensures NumberLit(w) == TokenItem(k, |w|) <==> k == IntLit && IsPrefixed(w)
  {
    hide Radix, NumberEnd, Mantissa;
    RadixExactly(w, IsHexDigit);
    RadixExactly(w, IsOctDigit);
    RadixExactly(w, IsBinDigit);
    RadixIsInt(w);
  }

  lemma RadixIsInt(w: string)
    requires IsRadix(w)
    ensures NumberLit(w).TokenItem? ==> NumberLit(w).kind == IntLit
  {
  }

  lemma FloatIsDecimal(w: string)
    requires IsFloat(w)
    ensures !IsRadix(w)
  {
    var a, f, e :| IsFloatOf(w, a, f, e);
    if |a| > 1 {
      assert w[1] == a[1] && a[1] in a;
    } else {
      assert w[1] == if f != "" then f[0] else e[0];
    }
  }

  /** The mantissa of a decimal, with its fraction if it has one. */
  lemma MantissaReads(a: string, f: string, rest: string)
    requires IsDecimal(a) && (f == "" || IsFraction(f))
    requires rest != "" ==> !IsDigitOrUnderscore(rest[0]) && rest[0] != '.'
    ensures Mantissa(a + f + rest) == (|a| + |f|, if f == "" then IntLit else FloatLit)
  {
    hide Span;
    var s := a + f + rest;
    assert s == a + (f + rest);
    if f == "" {
      assert f + rest == rest;
      DecimalSpan(a, rest);
    } else {
      assert (f + rest)[0] == '.';
      DecimalSpan(a, f + rest);
      assert s[|a|] == '.' && s[|a| + 1..] == f[1..] + rest && s[|a| + 1] == f[1];
      DecimalSpan(f[1..], rest);
    }
  }

  lemma FractionIs(s: string, n: nat)
    requires At(s, n, '.') && DigitAt(s, n + 1)
    ensures var m := n + 1 + Span(s[n + 1..], IsDigitOrUnderscore);
            m <= |s| && IsFraction(s[n..m]) && (m < |s| ==> !IsDigitOrUnderscore(s[m]))
  {
    hide Span;
    var t := s[n + 1..];
    var k := Span(t, IsDigitOrUnderscore);
    assert t[0] == s[n + 1];
    SpanIsDecimal(t);
    assert s[n..n + 1 + k][1..] == t[..k];
    if n + 1 + k < |s| { assert t[k] == s[n + 1 + k]; }
  }

  lemma MantissaIs(s: string)
    requires DigitAt(s, 0)
    ensures var n := Span(s, IsDigitOrUnderscore);
            var m := Mantissa(s);
            && 1 <= n <= m.0 && IsDecimal(s[..n])
            && (m.1 == IntLit ==> m.0 == n)
            && (m.1 != IntLit ==> m.1 == FloatLit && IsFraction(s[n..m.0]))
            && (m.0 < |s| ==> !IsDigitOrUnderscore(s[m.0]))
  {
    hide Span, IsFraction, IsDecimal, At, DigitAt;
    var n := Span(s, IsDigitOrUnderscore);
    SpanIsDecimal(s);
    if At(s, n, '.') && DigitAt(s, n + 1) { FractionIs(s, n); }
  }

  /** What a decimal scans to is a decimal, or a decimal with a fraction or an exponent. */
  lemma DecimalIs(w: string, k: Kind)
    requires DigitAt(w, 0) && !IsRadix(w) && NumberLit(w) == TokenItem(k, |w|)
    ensures (k == IntLit && IsDecimal(w)) || (k == FloatLit && IsFloat(w))
  {
    hide Span, Mantissa, Exponent;
    var n, m := Span(w, IsDigitOrUnderscore), Mantissa(w);
    MantissaIs(w);
    var a, f, e := w[..n], w[n..m.0], w[m.0..];
    assert w == a + f + e;
    if AtAny(w, m.0, "eE") {
      assert e[0] == w[m.0];
      ExponentIs(e);
      assert e[..Exponent(e).value] == e;
      assert IsFloatOf(w, a, f, e);
    } else if m.1 == FloatLit {
      assert IsFloatOf(w, a, f, "");
    } else {
      assert a == w;
    }
  }

  lemma DecimalReads(w: string)
    requires IsDecimal(w)
    ensures DigitAt(w, 0) && NumberLit(w) == TokenItem(IntLit, |w|) && !IsRadix(w)
  {
    hide Span, Mantissa, Exponent;
    assert |w| > 1 ==> w[1] in w;
    MantissaReads(w, "", "");
    assert w + "" + "" == w;
  }

  lemma FloatReads(w: string)
    requires IsFloat(w)
    ensures DigitAt(w, 0) && NumberLit(w) == TokenItem(FloatLit, |w|)
  {
    hide Span, Mantissa, Exponent;
    FloatIsDecimal(w);
    var a, f, e :| IsFloatOf(w, a, f, e);
    assert w[0] == a[0];
    if e != "" {
      assert e[0] in "eE";
      NoDigit(e[0]);
      ExponentReads(e, "");
      assert e + "" == e && w[|a| + |f|..] == e && w[|a| + |f|] == e[0];
    }
    MantissaReads(a, f, e);
  }

  lemma NoDigit(c: char)
    requires c in "eE"
    ensures !IsDigitOrUnderscore(c) && c != '.'
  {
  }

  lemma NumbersExactly(w: string, k: Kind)
    requires DigitAt(w, 0)
    ensures NumberLit(w) == TokenItem(k, |w|) <==> (k == IntLit && IsInteger(w)) || (k == FloatLit && IsFloat(w))
  {
    hide NumberLit, IsFloatOf, IsDecimal;
    if IsRadix(w) {
      PrefixedExactly(w, k);
      if IsDecimal(w) { DecimalReads(w); }
      if IsFloat(w) { FloatIsDecimal(w); }
    } else {
      if NumberLit(w) == TokenItem(k, |w|) { DecimalIs(w, k); }
      if IsDecimal(w) { DecimalReads(w); }
      if IsFloat(w) { FloatReads(w); }
      if IsPrefixed(w) { PrefixedIsRadix(w); }
    }
  }

  lemma PrefixedIsRadix(w: string)
    requires IsPrefixed(w)
    ensures IsRadix(w)
  {
    var c :| c in w[2..] && c != '_';
  }

  // ---------------------------------------------------------------- escapes and runes

  /** A backslash with one of these, with x and two hex digits, or with u and four. */
  predicate IsEscape(t: string) {
    && |t| >= 2 && t[0] == '\\'
    && ((|t| == 2 && t[1] in ['n', 't', 'r', '\\', '"', '\'', '0'])
       || (|t| == 4 && t[1] == 'x' && HexDigit(t[2]) && HexDigit(t[3]))
       || (|t| == 6 && t[1] == 'u' && HexDigit(t[2]) && HexDigit(t[3]) && HexDigit(t[4]) && HexDigit(t[5])))
  }

  lemma EscapeReads(t: string, rest: string)
    requires IsEscape(t)
    ensures At(t + rest, 0, '\\') && Escape(t + rest) == Consumed(|t|)
  {
    var s := t + rest;
    assert forall i :: 0 <= i < |t| ==> s[i] == t[i];
  }

  lemma EscapeIs(s: string)
    requires At(s, 0, '\\') && Escape(s).Consumed?
    ensures IsEscape(s[..Escape(s).n])
  {
    var t := s[..Escape(s).n];
    assert forall i :: 0 <= i < |t| ==> t[i] == s[i];
  }

  /** Between single quotes, one character that is no quote, backslash or line end, or an escape. */
  predicate IsRuneText(w: string) {
    && |w| >= 3 && w[0] == '\'' && w[|w| - 1] == '\''
    && (IsEscape(w[1..|w| - 1]) || (|w| == 3 && w[1] !in ['\'', '\\', '\n', '\r']))
  }

  lemma RunesExactly(w: string, k: Kind)
    requires At(w, 0, '\'')
    ensures Rune(w) == TokenItem(k, |w|) <==> k == RuneLit && IsRuneText(w)
  {
    hide Escape, IsEscape;
    if Rune(w) == TokenItem(k, |w|) && w[1] == '\\' {
      EscapeIs(w[1..]);
      assert w[1..][..Escape(w[1..]).n] == w[1..|w| - 1];
    }
    if |w| >= 3 && IsEscape(w[1..|w| - 1]) && w[|w| - 1] == '\'' {
      EscapeReads(w[1..|w| - 1], "'");
      assert w[1..] == w[1..|w| - 1] + "'";
      assert w[1] == w[1..][0];
    }
  }

  // ---------------------------------------------------------------- strings

  /** What stands between the quotes: a character, an escape, or an interpolation hole. */
  datatype Piece = Raw(c: char) | Escaped(text: string) | Hole(inside: string)

  /** The inside of a hole from somewhere on, d braces deep: the braces close, and there is no quote and
      no line end. */
  predicate InsideHole(t: string, d: nat) {
    if t == "" then d == 1 else
    && t[0] !in ['"', '\n', '\r']
    && if t[0] == '{' then InsideHole(t[1..], d + 1)
       else if t[0] == '}' then d > 1 && InsideHole(t[1..], d - 1)
       else InsideHole(t[1..], d)
  }

  predicate IsPiece(p: Piece) {
    match p
    case Raw(c) => c !in ['"', '\\', '\n', '\r']
    case Escaped(text) => IsEscape(text)
    case Hole(inside) => InsideHole(inside, 1)
  }

  function PieceText(p: Piece): string {
    match p
    case Raw(c) => [c]
    case Escaped(text) => text
    case Hole(inside) => "${" + inside + "}"
  }

  /** The pieces of a string; a plain `$` before a plain `{` would open a hole. */
  predicate ArePieces(ps: seq<Piece>) {
    ps != [] ==> IsPiece(ps[0]) && !(|ps| > 1 && ps[0] == Raw('$') && ps[1] == Raw('{')) && ArePieces(ps[1..])
  }

  function PiecesText(ps: seq<Piece>): string { if ps == [] then "" else PieceText(ps[0]) + PiecesText(ps[1..]) }

  predicate HasHole(ps: seq<Piece>) { exists i :: 0 <= i < |ps| && ps[i].Hole? }

  /** A string literal made of these pieces. */
  predicate IsStringOf(w: string, ps: seq<Piece>) { ArePieces(ps) && w == "\"" + PiecesText(ps) + "\"" }

  lemma HoleFirst(ps: seq<Piece>)
    requires ps != []
    ensures HasHole(ps) <==> ps[0].Hole? || HasHole(ps[1..])
  {
    if i :| 0 <= i < |ps| && ps[i].Hole? { assert i > 0 ==> ps[1..][i - 1] == ps[i]; }
    if i :| 0 <= i < |ps[1..]| && ps[1..][i].Hole? { assert ps[i + 1] == ps[1..][i]; }
  }

  /** Inside a hole the scanner goes on to the brace that closes it. */
  lemma {:induction false} HoleReads(s: string, i: nat, t: string, d: nat, rest: string)
    requires 1 <= i <= |s| && s[i..] == t + "}" + rest && d >= 1 && InsideHole(t, d)
    ensures i + |t| + 1 <= |s| && StringFrom(s, i, d, true) == StringFrom(s, i + |t| + 1, 0, true)
    decreases |t|
  {
    hide Escape;
    assert s[i] == s[i..][0];
    if t == "" {
      assert StringRound(s, i, d, true) == GoesOn(i + 1, 0, true);
    } else {
      assert s[i + 1..] == t[1..] + "}" + rest;
      HoleReads(s, i + 1, t[1..], if t[0] == '{' then d + 1 else if t[0] == '}' then d - 1 else d, rest);
    }
  }

  lemma RawReads(s: string, i: nat, c: char, rest: string, saw: bool)
    requires 1 <= i <= |s| && s[i..] == [c] + rest && IsPiece(Raw(c)) && (c == '$' ==> rest == "" || rest[0] != '{')
    ensures i + 1 <= |s| && StringFrom(s, i, 0, saw) == StringFrom(s, i + 1, 0, saw)
  {
    hide Escape;
    assert s[i] == s[i..][0];
    assert i + 1 < |s| ==> s[i + 1] == s[i..][1] == rest[0];
    assert StringRound(s, i, 0, saw) == GoesOn(i + 1, 0, saw);
  }

  lemma EscapedReads(s: string, i: nat, text: string, rest: string, saw: bool)
    requires 1 <= i <= |s| && s[i..] == text + rest && IsEscape(text)
    ensures i + |text| <= |s| && StringFrom(s, i, 0, saw) == StringFrom(s, i + |text|, 0, saw)
  {
    hide Escape;
    assert s[i] == s[i..][0];
    EscapeReads(text, rest);
    assert StringRound(s, i, 0, saw) == GoesOn(i + |text|, 0, saw);
  }

  lemma OpenedReads(s: string, i: nat, inside: string, rest: string, saw: bool)
    requires 1 <= i <= |s| && s[i..] == "${" + inside + "}" + rest && InsideHole(inside, 1)
    ensures i + |inside| + 3 <= |s| && StringFrom(s, i, 0, saw) == StringFrom(s, i + |inside| + 3, 0, true)
  {
    hide Escape, InsideHole;
    assert s[i] == s[i..][0] && s[i + 1] == s[i..][1];
    assert s[i + 2..] == inside + "}" + rest;
    assert StringRound(s, i, 0, saw) == GoesOn(i + 2, 1, true);
    HoleReads(s, i + 2, inside, 1, rest);
  }

  /** One piece outside a hole. */
  lemma PieceReads(s: string, i: nat, p: Piece, rest: string, saw: bool)
    requires 1 <= i <= |s| && s[i..] == PieceText(p) + rest && IsPiece(p)
    requires p == Raw('$') ==> rest == "" || rest[0] != '{'
    ensures i + |PieceText(p)| <= |s|
    ensures StringFrom(s, i, 0, saw) == StringFrom(s, i + |PieceText(p)|, 0, saw || p.Hole?)
  {
    hide StringFrom, StringRound, InsideHole, IsEscape;
    match p {
      case Raw(c) => RawReads(s, i, c, rest, saw);
      case Escaped(text) => EscapedReads(s, i, text, rest, saw);
      case Hole(inside) => OpenedReads(s, i, inside, rest, saw);
    }
  }

  lemma QuoteReads(s: string, i: nat, rest: string, saw: bool)
    requires 1 <= i <= |s| && s[i..] == "\"" + rest
    ensures StringFrom(s, i, 0, saw) == TokenItem(if saw then StringInterp else StringLit, i + 1)
  {
    hide Escape;
    assert s[i] == s[i..][0];
  }

  /** What the text behind a piece starts with. */
  lemma NextStarts(ps: seq<Piece>, rest: string)
    requires ArePieces(ps) && rest != "" && rest[0] != '{'
    ensures PiecesText(ps) + rest != "" && ((PiecesText(ps) + rest)[0] == '{' ==> ps != [] && ps[0] == Raw('{'))
  {
  }

  lemma FirstPieceReads(s: string, i: nat, ps: seq<Piece>, rest: string, saw: bool)
    requires 1 <= i <= |s| && ps != [] && ArePieces(ps) && s[i..] == PiecesText(ps) + ("\"" + rest)
    ensures var n := |PieceText(ps[0])|;
            && i + n <= |s| && s[i + n..] == PiecesText(ps[1..]) + ("\"" + rest)
            && StringFrom(s, i, 0, saw) == StringFrom(s, i + n, 0, saw || ps[0].Hole?)
  {
    hide IsPiece, StringFrom, PieceText;
    var more := PiecesText(ps[1..]) + ("\"" + rest);
    assert s[i..] == PieceText(ps[0]) + more;
    NextStarts(ps[1..], "\"" + rest);
    PieceReads(s, i, ps[0], more, saw);
    assert s[i + |PieceText(ps[0])|..] == s[i..][|PieceText(ps[0])|..];
  }

  lemma {:induction false} PiecesRead(s: string, i: nat, ps: seq<Piece>, rest: string, saw: bool)
    requires 1 <= i <= |s| && ArePieces(ps) && s[i..] == PiecesText(ps) + ("\"" + rest)
    ensures StringFrom(s, i, 0, saw) ==
            TokenItem(if saw || HasHole(ps) then StringInterp else StringLit, i + |PiecesText(ps)| + 1)
    decreases |ps|
  {
    hide IsPiece, StringFrom, HasHole, PieceText;
    if ps == [] {
      NoHole();
      assert s[i..] == "\"" + rest;
      QuoteReads(s, i, rest, saw);
    } else {
      HoleFirst(ps);
      FirstPieceReads(s, i, ps, rest, saw);
      PiecesRead(s, i + |PieceText(ps[0])|, ps[1..], rest, saw || ps[0].Hole?);
    }
  }

  lemma NoHole()
    ensures !HasHole([])
  {
  }

  lemma {:induction false} HoleIs(s: string, i: nat, d: nat) returns (m: nat)
    requires 1 <= i <= |s| && d >= 1 && StringFrom(s, i, d, true).TokenItem?
    ensures i + m < |s| && s[i + m] == '}' && InsideHole(s[i..i + m], d)
    ensures StringFrom(s, i, d, true) == StringFrom(s, i + m + 1, 0, true)
    decreases |s| - i
  {
    hide Escape;
    var d': nat := if s[i] == '{' then d + 1 else if s[i] == '}' then d - 1 else d;
    if d' == 0 {
      m := 0;
    } else {
      var k := HoleIs(s, i + 1, d');
      m := k + 1;
      assert s[i..i + m][1..] == s[i + 1..i + 1 + k];
    }
  }

  /** p is what the scanner takes at i, outside a hole. */
  ghost predicate Takes(s: string, i: nat, saw: bool, p: Piece)
    requires 1 <= i <= |s|
  {
    var n := |PieceText(p)|;
    && IsPiece(p) && n > 0 && i + n <= |s| && s[i..i + n] == PieceText(p)
    && (p == Raw('$') ==> i + 1 < |s| && s[i + 1] != '{')
    && StringFrom(s, i, 0, saw) == StringFrom(s, i + n, 0, saw || p.Hole?)
  }

  lemma HoleOpens(s: string, i: nat, saw: bool)
    requires 1 <= i < |s| && s[i] == '$' && At(s, i + 1, '{')
    ensures StringFrom(s, i, 0, saw) == StringFrom(s, i + 2, 1, true)
  {
    hide Escape;
    assert StringRound(s, i, 0, saw) == GoesOn(i + 2, 1, true);
  }

  lemma HoleText(s: string, i: nat, m: nat)
    requires i + m + 2 < |s| && s[i] == '$' && s[i + 1] == '{' && s[i + 2 + m] == '}'
    ensures s[i..i + m + 3] == "${" + s[i + 2..i + 2 + m] + "}"
  {
  }

  lemma TakesHole(s: string, i: nat, saw: bool) returns (p: Piece)
    requires 1 <= i < |s| && s[i] == '$' && At(s, i + 1, '{') && StringFrom(s, i, 0, saw).TokenItem?
    ensures Takes(s, i, saw, p)
  {
    hide StringFrom, InsideHole;
    HoleOpens(s, i, saw);
    var m := HoleIs(s, i + 2, 1);
    p := Hole(s[i + 2..i + 2 + m]);
    HoleText(s, i, m);
  }

  lemma TakesEscape(s: string, i: nat, saw: bool) returns (p: Piece)
    requires 1 <= i < |s| && s[i] == '\\' && StringFrom(s, i, 0, saw).TokenItem?
    ensures Takes(s, i, saw, p)
  {
    hide Escape, IsEscape;
    var n := Escape(s[i..]).n;
    EscapeIs(s[i..]);
    assert s[i..][..n] == s[i..i + n];
    p := Escaped(s[i..i + n]);
    assert StringRound(s, i, 0, saw) == GoesOn(i + n, 0, saw);
  }

  lemma TakesRaw(s: string, i: nat, saw: bool) returns (p: Piece)
    requires 1 <= i < |s| && s[i] != '"' && s[i] != '\\' && !(s[i] == '$' && At(s, i + 1, '{'))
    requires StringFrom(s, i, 0, saw).TokenItem?
    ensures Takes(s, i, saw, p)
  {
    hide Escape;
    p := Raw(s[i]);
    assert StringRound(s, i, 0, saw) == GoesOn(i + 1, 0, saw);
  }

  lemma PieceIs(s: string, i: nat, saw: bool) returns (p: Piece)
    requires 1 <= i < |s| && s[i] != '"' && StringFrom(s, i, 0, saw).TokenItem?
    ensures Takes(s, i, saw, p)
  {
    hide Takes, StringFrom;
    if s[i] == '$' && At(s, i + 1, '{') {
      p := TakesHole(s, i, saw);
    } else if s[i] == '\\' {
      p := TakesEscape(s, i, saw);
    } else {
      p := TakesRaw(s, i, saw);
    }
  }

  /** The pieces the scanner takes from i on, up to the quote. */
  ghost predicate TakesAll(s: string, i: nat, saw: bool, ps: seq<Piece>)
    requires 1 <= i <= |s|
  {
    var n := |PiecesText(ps)|;
    && ArePieces(ps) && i + n < |s| && s[i..i + n] == PiecesText(ps) && s[i + n] == '"'
    && StringFrom(s, i, 0, saw) == TokenItem(if saw || HasHole(ps) then StringInterp else StringLit, i + n + 1)
  }

  lemma OnePieceMore(s: string, i: nat, saw: bool, p: Piece, more: seq<Piece>)
    requires 1 <= i <= |s| && Takes(s, i, saw, p) && TakesAll(s, i + |PieceText(p)|, saw || p.Hole?, more)
    ensures TakesAll(s, i, saw, [p] + more)
  {
    hide StringFrom, IsPiece, HasHole;
    var ps, n, m := [p] + more, |PieceText(p)|, |PiecesText(more)|;
    assert ps[1..] == more && ps[0] == p;
    HoleFirst(ps);
    assert PiecesText(ps) == PieceText(p) + PiecesText(more);
    assert s[i..i + n + m] == s[i..i + n] + s[i + n..i + n + m];
    if more != [] && more[0] == Raw('{') { assert PiecesText(more)[0] == '{' == s[i + n]; }
  }

  lemma EndsEarly(s: string, i: nat, saw: bool)
    requires i == |s| >= 1
    ensures StringFrom(s, i, 0, saw).Fail?
  {
  }

  lemma TakesNone(s: string, i: nat, saw: bool)
    requires 1 <= i < |s| && s[i] == '"'
    ensures TakesAll(s, i, saw, [])
  {
    hide StringFrom;
    NoHole();
    QuoteReads(s, i, s[i + 1..], saw);
  }

  lemma {:induction false} PiecesAre(s: string, i: nat, saw: bool) returns (ps: seq<Piece>)
    requires 1 <= i <= |s| && StringFrom(s, i, 0, saw).TokenItem?
    ensures TakesAll(s, i, saw, ps)
    decreases |s| - i
  {
    hide StringFrom, TakesAll, IsPiece;
    if i == |s| { EndsEarly(s, i, saw); }
    if s[i] == '"' {
      ps := [];
      TakesNone(s, i, saw);
    } else {
      var p := PieceIs(s, i, saw);
      var more := PiecesAre(s, i + |PieceText(p)|, saw || p.Hole?);
      OnePieceMore(s, i, saw, p, more);
      ps := [p] + more;
    }
  }

  lemma StringIs(w: string, k: Kind) returns (ps: seq<Piece>)
    requires At(w, 0, '"') && StringFrom(w, 1, 0, false) == TokenItem(k, |w|)
    ensures IsStringOf(w, ps) && k == if HasHole(ps) then StringInterp else StringLit
  {
    hide StringFrom, HasHole, ArePieces;
    ps := PiecesAre(w, 1, false);
    var n := |PiecesText(ps)|;
    assert |w| == n + 2;
    assert w == [w[0]] + w[1..1 + n] + [w[1 + n]];
  }

  lemma StringReads(w: string, ps: seq<Piece>)
    requires IsStringOf(w, ps)
    ensures At(w, 0, '"') && StringFrom(w, 1, 0, false) == TokenItem(if HasHole(ps) then StringInterp else StringLit, |w|)
  {
    hide StringFrom, HasHole, ArePieces, PiecesText;
    assert w[1..] == PiecesText(ps) + ("\"" + "");
    PiecesRead(w, 1, ps, "", false);
  }

  lemma StringsExactly(w: string, k: Kind)
    requires At(w, 0, '"')
    ensures StringFrom(w, 1, 0, false) == TokenItem(k, |w|) <==>
            exists ps :: IsStringOf(w, ps) && k == if HasHole(ps) then StringInterp else StringLit
  {
    hide StringFrom, HasHole, IsStringOf;
    if StringFrom(w, 1, 0, false) == TokenItem(k, |w|) { var ps := StringIs(w, k); }
    forall ps | IsStringOf(w, ps) ensures StringFrom(w, 1, 0, false) == TokenItem(if HasHole(ps) then StringInterp else StringLit, |w|) {
      StringReads(w, ps);
    }
  }

  // ---------------------------------------------------------------- symbols

  const OPERATORS: set<string> := {
    "..=", "...", "+=", "-=", "*=", "/=", "%=", "..", "==", "!=", "<=", ">=", "&&", "||", "=>", "->", "<-",
    "+", "-", "*", "/", "%", "=", "!", "<", ">", "|" }

  const PUNCTUATION: set<string> := { "(", ")", "{", "}", "[", "]", ".", ",", ";", ":", "@" }

  lemma {:induction false} FirstOpIsOne(s: string, k: nat)
    requires k <= |MULTI_CHAR_OPS| && FirstOp(s, k).Some?
    ensures FirstOp(s, k).value in MULTI_CHAR_OPS
    decreases |MULTI_CHAR_OPS| - k
  {
    if !StartsWith(s, MULTI_CHAR_OPS[k]) { FirstOpIsOne(s, k + 1); }
  }

  lemma MultiAreOperators(op: string)
    ensures op in MULTI_CHAR_OPS ==> op in OPERATORS && |op| >= 2
    ensures op in OPERATORS && |op| != 1 ==> op in MULTI_CHAR_OPS
  {
  }

  lemma SingleAreOperators(c: char)
    ensures c in SINGLE_CHAR_OPS <==> [c] in OPERATORS
  {
    assert forall d: char :: [d] == [c] <==> d == c;
  }

  lemma PunctAreSymbols(c: char)
    ensures c in PUNCT_CHARS <==> [c] in PUNCTUATION
    ensures !(c in SINGLE_CHAR_OPS && c in PUNCT_CHARS)
  {
    assert forall d: char :: [d] == [c] <==> d == c;
  }

  lemma PunctuationIsShort(w: string)
    requires w in PUNCTUATION
    ensures |w| == 1
  {
  }

  lemma SymbolsExactly(w: string, k: Kind)
    requires w != ""
    ensures Symbol(w) == TokenItem(k, |w|) <==> (k == Op && w in OPERATORS) || (k == Punct && w in PUNCTUATION)
  {
    hide FirstOp;
    var op := FirstOp(w, 0);
    MultiAreOperators(w);
    SingleAreOperators(w[0]);
    PunctAreSymbols(w[0]);
    if w in PUNCTUATION { PunctuationIsShort(w); }
    if |w| == 1 { assert w == [w[0]]; }
    if op.Some? {
      FirstOpIsOne(w, 0);
      MultiAreOperators(op.value);
      if |op.value| == |w| { assert w == op.value; }
    }
    if w in MULTI_CHAR_OPS {
      var j :| 0 <= j < |MULTI_CHAR_OPS| && MULTI_CHAR_OPS[j] == w;
      OperatorIsLongest(w, 0, j);
      assert op.value == w;
    }
  }

  // ---------------------------------------------------------------- kinds

  /** The texts of each kind. */
  ghost predicate InKind(k: Kind, w: string) {
    match k
    case Ident => IsName(w) && w !in RESERVED_WORDS && !StartsWith(w, "_aril")
    case Keyword => w in RESERVED_WORDS
    case IntLit => IsInteger(w)
    case FloatLit => IsFloat(w)
    case StringLit => exists ps :: IsStringOf(w, ps) && !HasHole(ps)
    case StringInterp => exists ps :: IsStringOf(w, ps) && HasHole(ps)
    case RuneLit => IsRuneText(w)
    case Op => w in OPERATORS
    case Punct => w in PUNCTUATION
    case Newline => false
    case Eof => false
  }

  /** What a token of each kind starts with. */
  predicate Starts(k: Kind, c: char) {
    match k
    case Ident => Letter(c)
    case Keyword => Letter(c)
    case IntLit => Digit(c)
    case FloatLit => Digit(c)
    case StringLit => c == '"'
    case StringInterp => c == '"'
    case RuneLit => c == '\''
    case Op => c in SINGLE_CHAR_OPS || c in ['.', '&']
    case Punct => c in PUNCT_CHARS
    case Newline => false
    case Eof => false
  }

  lemma OperatorStarts(w: string)
    requires w in OPERATORS
    ensures w != "" && (w[0] in SINGLE_CHAR_OPS || w[0] in ['.', '&']) && (w[0] == '/' ==> w == "/" || w == "/=")
  {
  }

  lemma PunctuationStarts(w: string)
    requires w in PUNCTUATION
    ensures w != "" && w[0] in PUNCT_CHARS
  {
  }

  lemma KindStarts(k: Kind, w: string)
    requires InKind(k, w)
    ensures w != "" && Starts(k, w[0])
  {
    hide IsFloatOf, IsPrefixed, IsDecimal, OPERATORS, PUNCTUATION;
    match k {
      case Keyword => KeywordsAreNames(w);
      case IntLit => if IsDecimal(w) { DecimalReads(w); } else { PrefixedIsRadix(w); }
      case FloatLit => FloatReads(w);
      case Op => OperatorStarts(w);
      case Punct => PunctuationStarts(w);
      case _ =>
    }
  }

  /** The characters no other kind of token, and no gap, starts with. */
  predicate IsSymbolStart(c: char) { !IsLetter(c) && !IsDigit(c) && c !in [' ', '\t', '\n', '\r', '"', '\''] }

  lemma WordKinds(k: Kind, w: string)
    requires w != "" && IsLetter(w[0])
    ensures IsWord((k, w)) <==> InKind(k, w)
  {
    hide IdentItem, IsName, InKind;
    WordsExactly(w, k);
    if InKind(k, w) { KindStarts(k, w); }
    WordKindsOnly(k, w);
  }

  lemma WordKindsOnly(k: Kind, w: string)
    requires w != "" && IsLetter(w[0])
    ensures InKind(k, w) && Starts(k, w[0]) <==>
            IsName(w) && !StartsWith(w, "_aril") && k == if w in RESERVED_WORDS then Keyword else Ident
  {
    hide IsName, IsInteger, IsFloat, IsStringOf, IsRuneText, RESERVED_WORDS, OPERATORS, PUNCTUATION;
    if w in RESERVED_WORDS { KeywordsAreNames(w); }
  }

  lemma NumberKinds(k: Kind, w: string)
    requires DigitAt(w, 0)
    ensures IsWord((k, w)) <==> InKind(k, w)
  {
    hide NumberLit, IsFloat, IsInteger;
    NumbersExactly(w, k);
    if InKind(k, w) { KindStarts(k, w); }
  }

  lemma StringKinds(k: Kind, w: string)
    requires At(w, 0, '"')
    ensures IsWord((k, w)) <==> InKind(k, w)
  {
    hide StringFrom, IsStringOf, HasHole;
    StringsExactly(w, k);
    if InKind(k, w) { KindStarts(k, w); }
  }

  lemma RuneKinds(k: Kind, w: string)
    requires At(w, 0, '\'')
    ensures IsWord((k, w)) <==> InKind(k, w)
  {
    hide Rune, IsRuneText;
    RunesExactly(w, k);
    if InKind(k, w) { KindStarts(k, w); }
  }

  lemma SymbolKinds(k: Kind, w: string)
    requires w != "" && IsSymbolStart(w[0])
    ensures IsWord((k, w)) <==> InKind(k, w)
  {
    hide Symbol, OPERATORS, PUNCTUATION;
    SymbolsExactly(w, k);
    if InKind(k, w) { KindStarts(k, w); }
    if w in OPERATORS { OperatorStarts(w); }
    if w in PUNCTUATION { PunctuationStarts(w); }
  }

  /** A text is scanned as one token of a kind exactly when it is one of the texts of that kind. */
  lemma KindsExactly(k: Kind, w: string)
    ensures IsWord((k, w)) <==> InKind(k, w)
  {
    hide InKind;
    if w == "" {
      if InKind(k, w) { KindStarts(k, w); }
    } else if IsLetter(w[0]) {
      WordKinds(k, w);
    } else if IsDigit(w[0]) {
      NumberKinds(k, w);
    } else if w[0] == '"' {
      StringKinds(k, w);
    } else if w[0] == '\'' {
      RuneKinds(k, w);
    } else if IsSymbolStart(w[0]) {
      SymbolKinds(k, w);
    } else if InKind(k, w) {
      KindStarts(k, w);
    }
  }

  // ---------------------------------------------------------------- the tokens of a source

  /** A newline and the end of the file have no text; every other token has a text of its kind. */
  ghost predicate HasKind(t: Token) {
    if t.kind.Newline? || t.kind.Eof? then t.lexeme == "" else InKind(t.kind, t.lexeme)
  }

  lemma {:induction false} PlainHas(ts: seq<Token>, t: Token)
    requires t in ts && !t.kind.Newline? && !t.kind.Eof?
    ensures (t.kind, t.lexeme) in Plain(ts)
    decreases |ts|
  {
    if t != ts[0] { PlainHas(ts[1..], t); }
  }

  lemma {:induction false} NewlinesAreEmpty(src: string, off: nat, items: seq<Item>)
    requires off <= |src| && Fit(src, off, items) && RealKinds(items)
    ensures forall t :: t in TokensOf(src, off, items) ==> (t.kind.Newline? ==> t.lexeme == "") && !t.kind.Eof?
    decreases |items|
  {
    hide PosAfter;
    if items != [] && !items[0].Fail? {
      assert items[0] in items;
      NewlinesAreEmpty(src, off + items[0].n, items[1..]);
    }
  }

  lemma TokenHasKind(src: string, t: Token)
    requires t in Lex(src).0
    ensures HasKind(t)
  {
    hide InKind, IsWord, TokensOf, PosAfter;
    ItemsAreReal(src, 0);
    NewlinesAreEmpty(src, 0, ItemsFrom(src, 0));
    if !t.kind.Newline? && !t.kind.Eof? {
      PlainHas(Lex(src).0, t);
      PlainOfLex(src);
      WordsAreWords(src, 0);
      KindsExactly(t.kind, t.lexeme);
    }
  }

  /** Every token of a source has a text of its kind. */
  lemma TokensHaveKinds(src: string)
    ensures forall t :: t in Lex(src).0 ==> HasKind(t)
  {
    hide HasKind, Lex;
    forall t | t in Lex(src).0 ensures HasKind(t) { TokenHasKind(src, t); }
  }

  // ---------------------------------------------------------------- no token stops too early

  lemma RadixMunch(s: string, digitOk: char -> bool)
    requires |s| >= 2 && Radix(s, digitOk).TokenItem? && Radix(s, digitOk).n < |s|
    ensures !Letter(s[Radix(s, digitOk).n]) && !Digit(s[Radix(s, digitOk).n])
  {
    var n := Radix(s, digitOk).n;
    assert s[n] == s[2..][n - 2];
  }

  lemma ExponentMunch(s: string)
    requires s != "" && Exponent(s).Some? && Exponent(s).value < |s|
    ensures !Digit(s[Exponent(s).value])
  {
    var k := if AtAny(s, 1, "+-") then 2 else 1;
    var n := Exponent(s).value;
    assert s[n] == s[k..][n - k];
  }

  /** No digit is left behind a number, no underscore, exponent or fraction behind an integer. */
  lemma NumberMunch(s: string)
    requires DigitAt(s, 0) && NumberLit(s).TokenItem? && NumberLit(s).n < |s|
    ensures var n := NumberLit(s).n;
            && !Digit(s[n])
            && (NumberLit(s).kind == IntLit ==>
                  s[n] !in ['_', 'e', 'E'] && (!IsRadix(s) ==> !(s[n] == '.' && n + 1 < |s| && Digit(s[n + 1]))))
  {
    hide Span, Radix, Exponent;
    if IsRadix(s) {
      if s[1] in "xX" { RadixMunch(s, IsHexDigit); } else if s[1] in "oO" { RadixMunch(s, IsOctDigit); } else { RadixMunch(s, IsBinDigit); }
    } else {
      MantissaIs(s);
      var m := Mantissa(s).0;
      if AtAny(s, m, "eE") {
        var k := Exponent(s[m..]).value;
        assert s[m..][k] == s[m + k];
        ExponentMunch(s[m..]);
      }
    }
  }

  lemma SymbolMunch(s: string, op: string)
    requires s != "" && Symbol(s).TokenItem? && op in OPERATORS && StartsWith(s, op)
    ensures Symbol(s).kind == Op && |op| <= Symbol(s).n
  {
    hide FirstOp, OPERATORS;
    MultiAreOperators(op);
    OperatorStarts(op);
    if |op| == 1 {
      assert op == [op[0]] && s[0] == op[0];
      SingleAreOperators(op[0]);
    } else {
      var j :| 0 <= j < |MULTI_CHAR_OPS| && MULTI_CHAR_OPS[j] == op;
      OperatorIsLongest(s, 0, j);
    }
  }

  /** A token starts as its kind does. */
  lemma TokenStarts(s: string)
    requires s != "" && Scan(s).TokenItem?
    ensures Starts(Scan(s).kind, s[0])
  {
    hide Scan, Starts, InKind, IsWord;
    TokenAlone(s);
    var w := s[..Scan(s).n];
    KindsExactly(Scan(s).kind, w);
    KindStarts(Scan(s).kind, w);
    assert w[0] == s[0];
  }

  lemma WordMunch(s: string)
    requires s != "" && IsLetter(s[0]) && IdentItem(s).TokenItem? && IdentItem(s).n < |s|
    ensures !Letter(s[IdentItem(s).n]) && !Digit(s[IdentItem(s).n])
  {
  }

  /** No word, number or operator that starts with these n characters goes on behind them. */
  ghost predicate GoesNoFurther(s: string, k: Kind, n: nat)
    requires n < |s|
  {
    && (k == Ident || k == Keyword ==> !Letter(s[n]) && !Digit(s[n]))
    && (k == IntLit || k == FloatLit ==> !Digit(s[n]))
    && (k == IntLit ==> s[n] !in ['_', 'e', 'E'] && (!IsRadix(s) ==> !(s[n] == '.' && n + 1 < |s| && Digit(s[n + 1]))))
    && (k == Op || k == Punct ==> forall op :: op in OPERATORS && StartsWith(s, op) ==> k == Op && |op| <= n)
  }

  /** The text a token takes is as long as it can be. */
  lemma MaximalMunch(s: string)
    requires s != "" && Scan(s).TokenItem? && Scan(s).n < |s|
    ensures GoesNoFurther(s, Scan(s).kind, Scan(s).n)
  {
    hide IdentItem, NumberLit, StringFrom, Rune, Symbol, OPERATORS;
    TokenStarts(s);
    if IsLetter(s[0]) {
      WordMunch(s);
    } else if IsDigit(s[0]) {
      NumberMunch(s);
    } else if s[0] != '"' && s[0] != '\'' {
      forall op | op in OPERATORS && StartsWith(s, op) ensures Scan(s).kind == Op && |op| <= Scan(s).n { SymbolMunch(s, op); }
    }
  }

  // ---------------------------------------------------------------- failures

  /** The inside of a hole up to somewhere: d braces deep. */
  predicate OpenTo(t: string, d: nat)
    decreases |t|
  {
    if t == "" then d == 1 else
    var c, before := t[|t| - 1], t[..|t| - 1];
    && c !in ['"', '\n', '\r'] && d >= 1
    && if c == '{' then d > 1 && OpenTo(before, d - 1) else if c == '}' then OpenTo(before, d + 1) else OpenTo(before, d)
  }

  /** Up to k the text is a quote, pieces, and, d braces deep, a hole that is open. */
  predicate IsStringUpTo(s: string, k: nat, ps: seq<Piece>, open: string, d: nat) {
    && 1 <= k <= |s| && s[..k] == "\"" + PiecesText(ps) + open && ArePieces(ps)
    && (d == 0 ==> open == "") && (d > 0 ==> |open| >= 2 && open[0] == '$' && open[1] == '{' && OpenTo(open[2..], d))
    && (d == 0 && ps != [] && ps[|ps| - 1] == Raw('$') ==> !At(s, k, '{'))
  }

  /** A string literal has come as far as k, inside a hole or not. */
  ghost predicate StringUpTo(s: string, k: nat, inHole: bool) {
    exists ps, open, d :: IsStringUpTo(s, k, ps, open, d) && (inHole <==> d > 0)
  }

  /** No escape stands at `at`, behind the backslash there. */
  ghost predicate NoEscapeAt(s: string, at: nat) {
    At(s, at, '\\') && at + 1 < |s| && forall t :: IsEscape(t) ==> !StartsWith(s[at..], t)
  }

  /** The place of a backslash in a rune literal, or in a string literal outside holes. */
  ghost predicate EscapePlace(s: string, at: nat) {
    At(s, at, '\\') && ((At(s, 0, '\'') && at == 1) || (At(s, 0, '"') && StringUpTo(s, at, false)))
  }

  /** The digits of a decimal and its fraction end at `at`, with an e that no digit follows. */
  ghost predicate NoExponentAt(s: string, at: nat) {
    && AtAny(s, at, "eE") && !DigitAt(s, if AtAny(s, at + 1, "+-") then at + 2 else at + 1)
    && exists a, f :: s[..at] == a + f && IsDecimal(a) && (f == "" || IsFraction(f))
  }

  /** A radix prefix whose digits are missing or wrong. */
  ghost predicate NoRadixDigits(s: string) {
    IsRadix(s) && exists n :: 2 <= n <= |s| && IsNameOrEmpty(s[2..n]) && (n < |s| ==> !Letter(s[n]) && !Digit(s[n])) && !IsPrefixed(s[..n])
  }

  predicate IsNameOrEmpty(w: string) { forall c :: c in w ==> Letter(c) || Digit(c) }

  /** What a failure of each code says of the text left. */
  ghost predicate FailsFor(s: string, code: Code, at: nat)
    requires s != ""
  {
    match code
    case Unexpected =>
      && at == 0
      && ((s[0] == '\r' && !At(s, 1, '\n'))
          || (IsSymbolStart(s[0]) && forall t :: t in OPERATORS || t in PUNCTUATION ==> !StartsWith(s, t)))
    case Reserved => at == 0 && StartsWith(s, "_aril")
    case BadNumber => Digit(s[0]) && ((at == 0 && NoRadixDigits(s)) || (at > 0 && !IsRadix(s) && NoExponentAt(s, at)))
    case StringInHole => s[0] == '"' && At(s, at, '"') && StringUpTo(s, at, true)
    case BadEscape => EscapePlace(s, at) && NoEscapeAt(s, at)
    case BadRune =>
      && at == 0 && s[0] == '\'' && |s| > 1 && (forall w :: IsRuneText(w) ==> !StartsWith(s, w))
      && (s[1] == '\\' ==> exists t :: IsEscape(t) && StartsWith(s[1..], t))
    case Unterminated =>
      || (at > 0 && EscapePlace(s, at) && at + 1 == |s|)
      || (at == 0 && s == "'")
      || (at == 0 && StartsWith(s, "/*") && forall i :: 2 <= i < |s| ==> !EndsComment(s, i))
      || (at == 0 && s[0] == '"' && exists k: nat, inHole :: StringUpTo(s, k, inHole) && k <= |s| && (k == |s| || s[k] in ['\n', '\r']))
  }

  lemma EscapeAtStart(s: string, t: string)
    requires IsEscape(t) && StartsWith(s, t)
    ensures At(s, 0, '\\') && Escape(s) == Consumed(|t|)
  {
    assert s == t + s[|t|..];
    EscapeReads(t, s[|t|..]);
  }

  lemma EscapeFails(s: string, at: nat)
    requires At(s, at, '\\') && Escape(s[at..]).Bad?
    ensures if at + 1 == |s| then Escape(s[at..]).code == Unterminated else Escape(s[at..]).code == BadEscape && NoEscapeAt(s, at)
  {
    EscapeCodes(s[at..]);
    hide Escape;
    forall t | IsEscape(t) ensures !StartsWith(s[at..], t) {
      if StartsWith(s[at..], t) { EscapeAtStart(s[at..], t); }
    }
  }

  lemma EscapeCodes(s: string)
    requires At(s, 0, '\\') && Escape(s).Bad?
    ensures Escape(s).code == if |s| == 1 then Unterminated else BadEscape
  {
  }

  // ---------------------------------------------------------------- a string that fails

  lemma {:induction false} OpenCloses(t: string, d: nat, rest: string)
    requires OpenTo(t, d) && InsideHole(rest, d)
    ensures InsideHole(t + rest, 1)
    decreases |t|
  {
    if t == "" {
      assert t + rest == rest;
    } else {
      var c, before := t[|t| - 1], t[..|t| - 1];
      assert ([c] + rest)[1..] == rest;
      OpenCloses(before, if c == '{' then d - 1 else if c == '}' then d + 1 else d, [c] + rest);
      assert before + ([c] + rest) == t + rest;
    }
  }

  lemma {:induction false} AppendPiece(ps: seq<Piece>, p: Piece)
    requires ArePieces(ps) && IsPiece(p) && !(ps != [] && ps[|ps| - 1] == Raw('$') && p == Raw('{'))
    ensures ArePieces(ps + [p]) && PiecesText(ps + [p]) == PiecesText(ps) + PieceText(p)
    decreases |ps|
  {
    hide IsPiece;
    var more := ps + [p];
    if ps == [] {
      assert more == [p] && more[1..] == [];
    } else {
      AppendPiece(ps[1..], p);
      assert more[1..] == ps[1..] + [p];
    }
  }

  lemma OpensOn(t: string, c: char, d: nat)
    requires OpenTo(t, d) && c !in ['"', '\n', '\r'] && !(c == '}' && d == 1)
    ensures OpenTo(t + [c], if c == '{' then d + 1 else if c == '}' then d - 1 else d)
  {
    assert (t + [c])[..|t + [c]| - 1] == t;
  }

  lemma OpenDepth(t: string, d: nat)
    requires OpenTo(t, d)
    ensures d >= 1
  {
  }

  lemma Grown(s: string, k: nat, m: nat)
    requires k <= m <= |s|
    ensures s[..m] == s[..k] + s[k..m]
  {
  }

  /** A piece behind what there is, outside holes. */
  lemma UpToPiece(s: string, k: nat, ps: seq<Piece>, p: Piece)
    requires IsStringUpTo(s, k, ps, "", 0) && IsPiece(p) && k + |PieceText(p)| <= |s| && s[k..k + |PieceText(p)|] == PieceText(p)
    requires (p == Raw('{') ==> At(s, k, '{')) && (p == Raw('$') ==> !At(s, k + 1, '{'))
    ensures IsStringUpTo(s, k + |PieceText(p)|, ps + [p], "", 0)
  {
    hide IsPiece;
    var m := k + |PieceText(p)|;
    AppendPiece(ps, p);
    Grown(s, k, m);
    assert s[..m] == "\"" + PiecesText(ps + [p]) + "";
  }

  /** A character in a hole. */
  lemma UpToInside(s: string, k: nat, ps: seq<Piece>, open: string, d: nat)
    requires IsStringUpTo(s, k, ps, open, d) && d > 0 && k < |s| && s[k] !in ['"', '\n', '\r'] && !(s[k] == '}' && d == 1)
    ensures IsStringUpTo(s, k + 1, ps, open + [s[k]], if s[k] == '{' then d + 1 else if s[k] == '}' then d - 1 else d)
  {
    hide OpenTo, ArePieces;
    OpensOn(open[2..], s[k], d);
    assert (open + [s[k]])[2..] == open[2..] + [s[k]];
    Grown(s, k, k + 1);
    assert s[..k + 1] == "\"" + PiecesText(ps) + (open + [s[k]]);
  }

  lemma HoleOf(open: string)
    requires |open| >= 2 && open[0] == '$' && open[1] == '{'
    ensures PieceText(Hole(open[2..])) == open + "}"
  {
  }

  lemma Joined(a: string, b: string, c: string, d: string)
    ensures a + b + c + d == a + (b + (c + d)) + ""
  {
  }

  /** The brace that closes a hole. */
  lemma UpToClosed(s: string, k: nat, ps: seq<Piece>, open: string)
    requires IsStringUpTo(s, k, ps, open, 1) && At(s, k, '}')
    ensures IsStringUpTo(s, k + 1, ps + [Hole(open[2..])], "", 0)
  {
    var p := Hole(open[2..]);
    OpenCloses(open[2..], 1, "");
    assert open[2..] + "" == open[2..];
    hide OpenTo, ArePieces, InsideHole, PiecesText, PieceText;
    AppendPiece(ps, p);
    Grown(s, k, k + 1);
    HoleOf(open);
    assert s[k..k + 1] == "}";
    Joined("\"", PiecesText(ps), open, "}");
  }

  lemma OpenOrNot(s: string, k: nat, ps: seq<Piece>, open: string, d: nat)
    requires IsStringUpTo(s, k, ps, open, d)
    ensures if d == 0 then open == "" else |open| >= 2
  {
  }

  lemma UpToOpened(s: string, k: nat, ps: seq<Piece>)
    requires IsStringUpTo(s, k, ps, "", 0) && At(s, k, '$') && At(s, k + 1, '{')
    ensures IsStringUpTo(s, k + 2, ps, "${", 1)
  {
    hide ArePieces;
    Grown(s, k, k + 2);
    assert s[k..k + 2] == "${";
    assert s[..k + 2] == "\"" + PiecesText(ps) + "${";
  }

  /** A round of the scanner that goes on. */
  lemma RoundGoesOn(s: string, k: nat, ps: seq<Piece>, open: string, d: nat, saw: bool) returns (ps': seq<Piece>, open': string)
    requires 1 <= k <= |s| && IsStringUpTo(s, k, ps, open, d) && StringRound(s, k, d, saw).GoesOn?
    ensures var r := StringRound(s, k, d, saw); IsStringUpTo(s, r.i, ps', open', r.holeDepth)
  {
    hide IsStringUpTo, Escape, IsEscape, ArePieces, PiecesText;
    var c := s[k];
    ps', open' := ps, "";
    OpenOrNot(s, k, ps, open, d);
    if d == 0 && c == '$' && At(s, k + 1, '{') {
      UpToOpened(s, k, ps);
      open' := "${";
    } else if d > 0 && c == '}' && d == 1 {
      UpToClosed(s, k, ps, open);
      ps' := ps + [Hole(open[2..])];
    } else if d > 0 {
      UpToInside(s, k, ps, open, d);
      open' := open + [c];
    } else if c == '\\' {
      var n := Escape(s[k..]).n;
      EscapeIs(s[k..]);
      assert s[k..][..n] == s[k..k + n];
      UpToPiece(s, k, ps, Escaped(s[k..k + n]));
      ps' := ps + [Escaped(s[k..k + n])];
    } else {
      assert s[k..k + 1] == [c];
      UpToPiece(s, k, ps, Raw(c));
      ps' := ps + [Raw(c)];
    }
  }

  /** A round that ends in a failure. */
  lemma RoundFails(s: string, k: nat, ps: seq<Piece>, open: string, d: nat, saw: bool)
    requires 1 <= k <= |s| && IsStringUpTo(s, k, ps, open, d) && At(s, 0, '"') && StringRound(s, k, d, saw).Ends? && StringRound(s, k, d, saw).item.Fail?
    ensures FailsFor(s, StringRound(s, k, d, saw).item.code, StringRound(s, k, d, saw).item.at)
  {
    hide IsStringUpTo, Escape, IsEscape, NoEscapeAt;
    var item := StringRound(s, k, d, saw).item;
    assert StringUpTo(s, k, d > 0);
    if k == |s| || s[k] in ['\n', '\r'] {
      assert item == Fail(Unterminated, 0);
    } else if d > 0 {
      assert item == Fail(StringInHole, k);
    } else {
      EscapeFails(s, k);
      assert EscapePlace(s, k);
    }
  }

  lemma {:induction false} StringFails(s: string, k: nat, ps: seq<Piece>, open: string, d: nat, saw: bool)
    requires 1 <= k <= |s| && At(s, 0, '"') && IsStringUpTo(s, k, ps, open, d) && StringFrom(s, k, d, saw).Fail?
    ensures FailsFor(s, StringFrom(s, k, d, saw).code, StringFrom(s, k, d, saw).at)
    decreases |s| - k
  {
    hide IsStringUpTo, FailsFor;
    match StringRound(s, k, d, saw) {
      case Ends(_) => RoundFails(s, k, ps, open, d, saw);
      case GoesOn(k', d', saw') =>
        var ps', open' := RoundGoesOn(s, k, ps, open, d, saw);
        StringFails(s, k', ps', open', d', saw');
    }
  }

  lemma StringStarts(s: string)
    requires At(s, 0, '"')
    ensures IsStringUpTo(s, 1, [], "", 0)
  {
    assert s[..1] == "\"" + "" + "";
  }

  // ---------------------------------------------------------------- other failures

  lemma RuneAtStart(s: string, w: string)
    requires IsRuneText(w) && StartsWith(s, w)
    ensures Rune(s).TokenItem?
  {
    hide Escape, IsEscape;
    assert forall i :: 0 <= i < |w| ==> s[i] == w[i];
    if IsEscape(w[1..|w| - 1]) {
      EscapeReads(w[1..|w| - 1], s[|w| - 1..]);
      assert s[1..] == w[1..|w| - 1] + s[|w| - 1..];
      assert w[1] == w[1..|w| - 1][0] == '\\' by { EscapeStarts(w[1..|w| - 1]); }
    }
  }

  lemma EscapeStarts(t: string)
    requires IsEscape(t)
    ensures t != "" && t[0] == '\\'
  {
  }

  lemma RuneFails(s: string)
    requires At(s, 0, '\'') && Rune(s).Fail?
    ensures FailsFor(s, Rune(s).code, Rune(s).at)
  {
    hide Escape, IsEscape, NoEscapeAt, IsRuneText;
    forall w | IsRuneText(w) ensures !StartsWith(s, w) {
      if StartsWith(s, w) { RuneAtStart(s, w); }
    }
    if |s| == 1 {
      assert s == "'";
    } else if s[1] == '\\' {
      if Escape(s[1..]).Bad? {
        EscapeFails(s, 1);
      } else {
        EscapeIs(s[1..]);
        assert StartsWith(s[1..], s[1..][..Escape(s[1..]).n]);
      }
    }
  }

  lemma SymbolFails(s: string)
    requires s != "" && IsSymbolStart(s[0]) && Symbol(s).Fail?
    ensures FailsFor(s, Symbol(s).code, Symbol(s).at)
  {
    hide FirstOp, OPERATORS, PUNCTUATION;
    SingleAreOperators(s[0]);
    PunctAreSymbols(s[0]);
    forall t | t in OPERATORS || t in PUNCTUATION ensures !StartsWith(s, t) {
      MultiAreOperators(t);
      if t in PUNCTUATION { PunctuationIsShort(t); }
      if |t| == 1 { assert t == [t[0]]; }
      if StartsWith(s, t) && t in MULTI_CHAR_OPS {
        var j :| 0 <= j < |MULTI_CHAR_OPS| && MULTI_CHAR_OPS[j] == t;
        OperatorIsLongest(s, 0, j);
      }
    }
  }

  lemma {:induction false} CommentFails(s: string, i: nat)
    requires i <= |s| && CommentEnd(s, i).None?
    ensures forall j :: i <= j < |s| ==> !EndsComment(s, j)
    decreases |s| - i
  {
    if i < |s| { CommentFails(s, i + 1); }
  }

  /** A failure has the reason its code gives. */
  lemma FailureHasReason(s: string)
    requires s != "" && Scan(s).Fail?
    ensures FailsFor(s, Scan(s).code, Scan(s).at)
  {
    hide Span, NumberLit, StringFrom, Rune, Symbol, IdentItem, OPERATORS, PUNCTUATION, NoEscapeAt;
    if s[0] == '/' && At(s, 1, '*') && !At(s, 1, '/') {
      CommentFails(s, 2);
      assert s[..2] == "/*";
    } else if IsLetter(s[0]) {
      WordFails(s);
    } else if IsDigit(s[0]) {
      NumberFails(s);
    } else if s[0] == '"' {
      StringStarts(s);
      StringFails(s, 1, [], "", 0, false);
    } else if s[0] == '\'' {
      RuneFails(s);
    } else if IsSymbolStart(s[0]) {
      SymbolFails(s);
    }
  }

  lemma WordFails(s: string)
    requires s != "" && IsLetter(s[0]) && IdentItem(s).Fail?
    ensures IdentItem(s) == Fail(Reserved, 0) && StartsWith(s, "_aril")
  {
    var word := s[..Span(s, IsIdentChar)];
    assert word[..5] == s[..5];
  }

  lemma RadixFails(s: string, digitOk: char -> bool)
    requires IsRadix(s) && Radix(s, digitOk).Fail? && forall c :: digitOk(c) ==> IsIdentChar(c)
    requires forall w :: IsRadix(w) && w[1] == s[1] && IsPrefixed(w) ==> Radix(w, digitOk) == TokenItem(IntLit, |w|)
    ensures Radix(s, digitOk) == Fail(BadNumber, 0) && NoRadixDigits(s)
  {
    hide IsPrefixed;
    var n := 2 + Span(s[2..], IsIdentChar);
    var w := s[..n];
    assert s[2..n] == s[2..][..n - 2] == w[2..];
    assert n < |s| ==> s[n] == s[2..][n - 2];
    SpanExact(w[2..], IsIdentChar, n - 2);
    assert w[2..][..n - 2] == s[2..][..n - 2];
    assert w[1] == s[1] && w[0] == s[0];
  }

  lemma NumberFails(s: string)
    requires DigitAt(s, 0) && NumberLit(s).Fail?
    ensures FailsFor(s, NumberLit(s).code, NumberLit(s).at)
  {
    hide Span, Radix, Exponent;
    if IsRadix(s) {
      forall w, k | IsRadix(w) ensures NumberLit(w) == TokenItem(k, |w|) <==> k == IntLit && IsPrefixed(w) { PrefixedExactly(w, k); }
      if s[1] in "xX" { RadixFails(s, IsHexDigit); } else if s[1] in "oO" { RadixFails(s, IsOctDigit); } else { RadixFails(s, IsBinDigit); }
    } else {
      MantissaIs(s);
      var n, m := Span(s, IsDigitOrUnderscore), Mantissa(s).0;
      ExponentFails(s[m..]);
      assert s[..m] == s[..n] + s[n..m];
      assert NoExponentAt(s, m);
    }
  }

  lemma ExponentFails(s: string)
    requires s != "" && Exponent(s).None?
    ensures !DigitAt(s, if AtAny(s, 1, "+-") then 2 else 1)
  {
  }

  // ---------------------------------------------------------------- the token stream

  /** t is the token of the n characters at off: a line end, or a text of its kind, and where they start. */
  ghost predicate IsTokenAt(src: string, off: nat, n: nat, t: Token)
    requires off + n <= |src|
  {
    && (t.line, t.col) == PosAfter(src[..off])
    && if t.kind == Newline then t.lexeme == "" && IsLineEnd(src[off..off + n])
       else t.lexeme == src[off..off + n] && InKind(t.kind, t.lexeme)
  }

  /** The n characters at off are a space, a tab or a comment. */
  ghost predicate IsGapAt(src: string, off: nat, n: nat)
    requires off + n <= |src|
  {
    IsGap(src[off..off + n])
  }

  /** From off to end the source is made of gaps and of these tokens, one after the other. */
  ghost predicate Tiles(src: string, off: nat, end: nat, ts: seq<Token>)
    requires off <= end <= |src|
    decreases end - off
  {
    || (off == end && ts == [])
    || (exists n: nat :: 1 <= n <= end - off && IsGapAt(src, off, n) && Tiles(src, off + n, end, ts))
    || (ts != [] && exists n: nat :: 1 <= n <= end - off && IsTokenAt(src, off, n, ts[0]) && Tiles(src, off + n, end, ts[1..]))
  }

  /** Lexing stops at `end` for a reason, with a diagnostic of that reason and its place. */
  ghost predicate StopsFor(src: string, end: nat, d: Diag)
    requires end <= |src|
  {
    exists at: nat :: end + at <= |src| && end < |src| && FailsFor(src[end..], d.code, at)
                      && (d.line, d.col) == PosAfter(src[..end + at])
  }

  lemma TokenTiles(src: string, off: nat)
    requires off < |src| && Scan(src[off..]).TokenItem?
    ensures var item := Scan(src[off..]);
            IsTokenAt(src, off, item.n, TokenAt(src, off, item.kind, src[off..off + item.n]))
  {
    hide Scan, InKind, PosAfter;
    OwnWordIsWord(src, off);
    var item := Scan(src[off..]);
    KindsExactly(item.kind, src[off..off + item.n]);
  }

  /** One step of the scanner adds one gap or one token. */
  lemma StepTiles(src: string, off: nat, end: nat, ts: seq<Token>)
    requires off < |src| && !Scan(src[off..]).Fail?
    requires off + Scan(src[off..]).n <= end <= |src| && Tiles(src, off + Scan(src[off..]).n, end, ts)
    ensures Tiles(src, off, end, OwnToken(src, off, Scan(src[off..])) + ts)
  {
    hide Scan, PosAfter, InKind, IsGap;
    var item := Scan(src[off..]);
    StepCovers(src[off..]);
    assert src[off..][..item.n] == src[off..off + item.n];
    var own := OwnToken(src, off, item);
    if item.Skipped? {
      assert own + ts == ts && IsGapAt(src, off, item.n);
    } else {
      assert (own + ts)[1..] == ts && (own + ts)[0] == own[0];
      if item.TokenItem? { TokenTiles(src, off); }
      assert IsTokenAt(src, off, item.n, own[0]);
    }
  }

  lemma TilesNothing(src: string, off: nat)
    requires off <= |src|
    ensures Tiles(src, off, off, [])
  {
  }

  lemma FailureStops(src: string, off: nat)
    requires off < |src| && Scan(src[off..]).Fail?
    ensures StopsFor(src, off, DiagAt(src, off + Scan(src[off..]).at, Scan(src[off..]).code))
  {
    hide Scan, PosAfter, FailsFor;
    FailureHasReason(src[off..]);
  }

  lemma {:induction false} ItemsTile(src: string, off: nat) returns (end: nat)
    requires off <= |src|
    ensures off <= end <= |src| && Tiles(src, off, end, TokensOf(src, off, ItemsFrom(src, off)))
    ensures !Failed(ItemsFrom(src, off)) ==> end == |src|
    ensures Failed(ItemsFrom(src, off)) ==> StopsFor(src, end, DiagOf(src, off, ItemsFrom(src, off)))
    decreases |src| - off
  {
    hide Scan, StopsFor, Tiles, OwnToken, DiagAt;
    end := off;
    TilesNothing(src, off);
    if off < |src| {
      var item := Scan(src[off..]);
      if item.Fail? {
        FailureStops(src, off);
      } else {
        end := ItemsTile(src, off + item.n);
        StepTiles(src, off, end, TokensOf(src, off + item.n, ItemsFrom(src, off + item.n)));
      }
    }
  }

  /** What LexFile emits: the source, cut into gaps and tokens of their kinds, each where it starts, up to
      the end, or up to where the text left fails for the reason reported. */
  ghost predicate IsLexed(src: string, tokens: seq<Token>, err: Option<Diag>) {
    match err
    case None =>
      && tokens != [] && Tiles(src, 0, |src|, tokens[..|tokens| - 1])
      && var last := tokens[|tokens| - 1];
         last.kind == Eof && last.lexeme == "" && (last.line, last.col) == PosAfter(src)
    case Some(d) => exists end: nat :: end <= |src| && Tiles(src, 0, end, tokens) && StopsFor(src, end, d)
  }

  lemma LexIsLexed(src: string)
    ensures IsLexed(src, Lex(src).0, Lex(src).1)
  {
    hide ItemsFrom, TokensOf, PosAfter, Tiles, StopsFor, DiagOf;
    var end := ItemsTile(src, 0);
    var ts, tokens := TokensOf(src, 0, ItemsFrom(src, 0)), Lex(src).0;
    if Lex(src).1.None? {
      assert tokens[..|tokens| - 1] == ts;
      assert src[..|src|] == src;
    }
  }
}
