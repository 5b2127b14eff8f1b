/** Re-lexing, coverage and longest match of the scanner. */
module LexingProofs {
  import opened Wrappers
  import opened Lexing

  // ---------------------------------------------------------------- a token does not look past a space

  /** What may follow a token when tokens are joined by spaces. */
  predicate Quiet(tail: string) { tail == "" || tail[0] == ' ' }

  /** The same span, cut off behind it and quiet from there on. */
  lemma SpanCut(s: string, p: char -> bool, tail: string)
    requires Quiet(tail) && !p(' ')
    ensures Span(s[..Span(s, p)] + tail, p) == Span(s, p)
  {
    var n := Span(s, p);
    SpanExact(s[..n] + tail, p, n);
  }

  lemma IdentCut(s: string, tail: string)
    requires s != "" && IsLetter(s[0]) && IdentItem(s).TokenItem? && Quiet(tail)
    ensures IdentItem(s[..IdentItem(s).n] + tail) == IdentItem(s)
  {
    var n := Span(s, IsIdentChar);
    SpanCut(s, IsIdentChar, tail);
    assert (s[..n] + tail)[..n] == s[..n];
  }

  lemma ExponentCut(s: string, tail: string)
    requires s != "" && Exponent(s).Some? && Quiet(tail)
    ensures Exponent(s[..Exponent(s).value] + tail) == Exponent(s)
  {
    var n := Exponent(s).value;
    var k := if AtAny(s, 1, "+-") then 2 else 1;
    var t := s[..n] + tail;
    assert forall i :: 0 <= i < n ==> t[i] == s[i];
    assert n == k + Span(s[k..], IsDigit);
    forall i | 0 <= i < n - k ensures IsDigit(t[k..][i]) { assert t[k..][i] == s[k..][i]; }
    SpanExact(t[k..], IsDigit, n - k);
  }

  lemma NumberEndCut(s: string, n: nat, kind: Kind, tail: string)
    requires 1 <= n <= |s| && !kind.Newline? && !kind.Eof? && NumberEnd(s, n, kind).TokenItem? && Quiet(tail)
    ensures NumberEnd(s[..NumberEnd(s, n, kind).n] + tail, n, kind) == NumberEnd(s, n, kind)
  {
    var m := NumberEnd(s, n, kind).n;
    var t := s[..m] + tail;
    if AtAny(s, n, "eE") {
      var k := Exponent(s[n..]).value;
      assert m == n + k && t[n] == s[n];
      ExponentCut(s[n..], tail);
      assert t[n..] == s[n..][..k] + tail;
    }
  }

  lemma RadixCut(s: string, digitOk: char -> bool, tail: string)
    requires |s| >= 2 && Radix(s, digitOk).TokenItem? && Quiet(tail)
    ensures Radix(s[..Radix(s, digitOk).n] + tail, digitOk) == Radix(s, digitOk)
  {
    var k := Span(s[2..], IsIdentChar);
    var t := s[..2 + k] + tail;
    SpanCut(s[2..], IsIdentChar, tail);
    assert t[2..] == s[2..][..k] + tail;
    assert t[2..][..k] == s[2..][..k];
  }

  /** A span from position k on that a longer common start holds, and that is over behind it. */
  lemma SpanAlike(s: string, t: string, k: nat, m: nat, p: char -> bool)
    requires k <= m && Alike(s, t, m) && (m < |t| ==> t[m] == ' ') && !p(' ') && k + Span(s[k..], p) <= m
    ensures Span(t[k..], p) == Span(s[k..], p)
  {
    var f := Span(s[k..], p);
    forall i | 0 <= i < f ensures p(t[k..][i]) { assert t[k..][i] == s[k..][i]; }
    if f < |t[k..]| { assert t[k..][f] == t[k + f] && (k + f < m ==> s[k..][f] == s[k + f]); }
    SpanExact(t[k..], p, f);
  }

  predicate IsRadix(s: string) { At(s, 0, '0') && AtAny(s, 1, "xXoObB") }

  predicate PointAt(s: string, n: nat) { At(s, n, '.') && DigitAt(s, n + 1) }

  lemma PointCut(s: string, t: string, n: nat, m: nat)
    requires Alike(s, t, m) && n <= m && (PointAt(s, n) ==> n + 2 <= m) && (m < |t| ==> t[m] == ' ')
    ensures PointAt(t, n) <==> PointAt(s, n)
  {
    if n < m { assert t[n] == s[n]; }
    if n + 1 < m { assert t[n + 1] == s[n + 1]; }
  }

  lemma FractionCut(s: string, t: string, n: nat, m: nat)
    requires Alike(s, t, m) && (m < |t| ==> t[m] == ' ') && PointAt(s, n) && n + 1 + Span(s[n + 1..], IsDigitOrUnderscore) <= m
    ensures PointAt(t, n) && Span(t[n + 1..], IsDigitOrUnderscore) == Span(s[n + 1..], IsDigitOrUnderscore)
  {
    hide Span;
    assert s[n + 1..][0] == s[n + 1];
    SpanAlike(s, t, n + 1, m, IsDigitOrUnderscore);
    PointCut(s, t, n, m);
  }

  lemma MantissaCut(s: string, t: string, m: nat)
    requires Mantissa(s).0 <= m && Alike(s, t, m) && (m < |t| ==> t[m] == ' ')
    ensures Mantissa(t) == Mantissa(s)
  {
    hide Span;
    var n := Span(s, IsDigitOrUnderscore);
    SpanFromStart(s, t, m);
    if PointAt(s, n) { FractionCut(s, t, n, m); } else { PointCut(s, t, n, m); }
  }

  lemma SpanFromStart(s: string, t: string, m: nat)
    requires Alike(s, t, m) && (m < |t| ==> t[m] == ' ') && Span(s, IsDigitOrUnderscore) <= m
    ensures Span(t, IsDigitOrUnderscore) == Span(s, IsDigitOrUnderscore)
  {
    hide Span;
    assert s[0..] == s && t[0..] == t;
    SpanAlike(s, t, 0, m, IsDigitOrUnderscore);
  }

  lemma DecimalCut(s: string, tail: string)
    requires DigitAt(s, 0) && NumberLit(s).TokenItem? && Quiet(tail) && !IsRadix(s)
    ensures NumberLit(s[..NumberLit(s).n] + tail) == NumberLit(s)
  {
    hide Span, Mantissa;
    var m := NumberLit(s).n;
    var t := s[..m] + tail;
    var (n, kind) := Mantissa(s);
    assert n <= m && Alike(s, t, m);
    MantissaCut(s, t, m);
    NumberEndCut(s, n, kind, tail);
    assert !IsRadix(t);
  }

  lemma NumberCut(s: string, tail: string)
    requires DigitAt(s, 0) && NumberLit(s).TokenItem? && Quiet(tail)
    ensures NumberLit(s[..NumberLit(s).n] + tail) == NumberLit(s)
  {
    hide Span, Mantissa, NumberEnd;
    if s[0] == '0' && AtAny(s, 1, "xX") {
      RadixCut(s, IsHexDigit, tail);
    } else if s[0] == '0' && AtAny(s, 1, "oO") {
      RadixCut(s, IsOctDigit, tail);
    } else if s[0] == '0' && AtAny(s, 1, "bB") {
      RadixCut(s, IsBinDigit, tail);
    } else {
      DecimalCut(s, tail);
    }
  }

  /** Both texts start with the same n characters. */
  ghost predicate Alike(s: string, t: string, n: nat) {
    n <= |s| && n <= |t| && forall i :: 0 <= i < n ==> t[i] == s[i]
  }

  /** An escape depends only on the characters it consumes. */
  lemma EscapeCut(s: string, t: string)
    requires At(s, 0, '\\') && Escape(s).Consumed? && |t| >= Escape(s).n && t[..Escape(s).n] == s[..Escape(s).n]
    ensures At(t, 0, '\\') && Escape(t) == Escape(s)
  {
    var n := Escape(s).n;
    assert forall i :: 0 <= i < n ==> t[i] == t[..n][i] == s[i];
  }

  /** A round depends only on the characters up to where the literal ends. */
  lemma RoundCut(s: string, t: string, i: nat, holeDepth: nat, sawInterp: bool, n: nat)
    requires 1 <= i < n && Alike(s, t, n) && (s[i] == '$' ==> i + 1 < n)
    requires match StringRound(s, i, holeDepth, sawInterp)
             case Ends(item) => item.TokenItem? && item.n == n
             case GoesOn(i', _, _) => i' < n
    ensures StringRound(t, i, holeDepth, sawInterp) == StringRound(s, i, holeDepth, sawInterp)
  {
    assert t[i] == s[i];
    if s[i] == '$' { assert t[i + 1] == s[i + 1]; }
    if s[i] == '\\' && holeDepth == 0 {
      var k := Escape(s[i..]).n;
      assert t[i..][..k] == s[i..][..k];
      EscapeCut(s[i..], t[i..]);
    }
  }

  /** A string literal depends only on the characters it consumes. */
  lemma {:induction false} StringCut(s: string, t: string, i: nat, holeDepth: nat, sawInterp: bool)
    requires 1 <= i <= |s| && StringFrom(s, i, holeDepth, sawInterp).TokenItem?
    requires Alike(s, t, StringFrom(s, i, holeDepth, sawInterp).n)
    ensures i <= |t| && StringFrom(t, i, holeDepth, sawInterp) == StringFrom(s, i, holeDepth, sawInterp)
    decreases |s| - i
  {
    RoundCut(s, t, i, holeDepth, sawInterp, StringFrom(s, i, holeDepth, sawInterp).n);
    match StringRound(s, i, holeDepth, sawInterp)
    case Ends(_) =>
    case GoesOn(i', holeDepth', sawInterp') => StringCut(s, t, i', holeDepth', sawInterp');
  }

  lemma RuneCut(s: string, tail: string)
    requires At(s, 0, '\'') && Rune(s).TokenItem?
    ensures Rune(s[..Rune(s).n] + tail) == Rune(s)
  {
    var n := Rune(s).n;
    var t := s[..n] + tail;
    assert n >= 3 && forall i :: 0 <= i < n ==> t[i] == s[i];
    if s[1] == '\\' {
      var k := Escape(s[1..]).n;
      assert n == k + 2;
      assert t[1..][..k] == s[1..][..k];
      EscapeCut(s[1..], t[1..]);
    }
  }

  // ---------------------------------------------------------------- operators

  predicate NoSpace(op: string) { ' ' !in op }

  lemma OpsHaveNoSpace(k: nat)
    requires k < |MULTI_CHAR_OPS|
    ensures NoSpace(MULTI_CHAR_OPS[k]) && |MULTI_CHAR_OPS[k]| >= 2
  {
  }

  lemma LongOpHasSpace(w: string, tail: string, op: string)
    requires Quiet(tail) && StartsWith(w + tail, op) && |op| > |w|
    ensures ' ' in op
  {
    assert op[|w|] == (w + tail)[..|op|][|w|] == tail[0];
  }

  /** No operator reaches over the space behind a text w. */
  lemma OpStaysInside(w: string, tail: string, k: nat)
    requires k < |MULTI_CHAR_OPS| && Quiet(tail) && StartsWith(w + tail, MULTI_CHAR_OPS[k])
    ensures StartsWith(w, MULTI_CHAR_OPS[k])
  {
    var op := MULTI_CHAR_OPS[k];
    OpsHaveNoSpace(k);
    if |op| > |w| {
      LongOpHasSpace(w, tail, op);
    } else {
      assert (w + tail)[..|op|] == w[..|op|];
    }
  }

  lemma {:induction false} FirstOpCut(s: string, w: string, tail: string, k: nat)
    requires k <= |MULTI_CHAR_OPS| && Quiet(tail) && StartsWith(s, w)
    requires match FirstOp(s, k) case Some(op) => w == op case None => |w| == 1
    ensures FirstOp(w + tail, k) == FirstOp(s, k)
    decreases |MULTI_CHAR_OPS| - k
  {
    if k < |MULTI_CHAR_OPS| {
      var op := MULTI_CHAR_OPS[k];
      if StartsWith(w + tail, op) {
        OpStaysInside(w, tail, k);
        OpsHaveNoSpace(k);
        assert s[..|op|] == s[..|w|][..|op|];
      }
      if StartsWith(s, op) {
        assert (w + tail)[..|w|] == w;
      } else {
        FirstOpCut(s, w, tail, k + 1);
      }
    }
  }

  lemma SymbolCut(s: string, tail: string)
    requires s != "" && Symbol(s).TokenItem? && Quiet(tail)
    ensures Symbol(s[..Symbol(s).n] + tail) == Symbol(s)
  {
    var w := s[..Symbol(s).n];
    FirstOpCut(s, w, tail, 0);
  }

  /** The operator taken is the longest the text starts with. */
  lemma {:induction false} OperatorIsLongest(s: string, k: nat, j: nat)
    requires k <= j < |MULTI_CHAR_OPS| && StartsWith(s, MULTI_CHAR_OPS[j])
    ensures FirstOp(s, k).Some? && |FirstOp(s, k).value| >= |MULTI_CHAR_OPS[j]|
    decreases j - k
  {
    LongestFirst(k, j);
    if !StartsWith(s, MULTI_CHAR_OPS[k]) { OperatorIsLongest(s, k + 1, j); }
  }

  lemma LongestFirst(k: nat, j: nat)
    requires k <= j < |MULTI_CHAR_OPS|
    ensures |MULTI_CHAR_OPS[k]| >= |MULTI_CHAR_OPS[j]|
  {
  }

  // ---------------------------------------------------------------- re-lexing

  /** What a text scans to as a token, on its own. */
  ghost predicate IsWord(w: (Kind, string)) { w.1 != "" && Scan(w.1) == TokenItem(w.0, |w.1|) }

  /** A token scans the same cut off behind it, at the end or before a space. */
  lemma TokenCut(s: string, tail: string)
    requires s != "" && Scan(s).TokenItem? && Quiet(tail)
    ensures Scan(s[..Scan(s).n] + tail) == Scan(s)
  {
    var c, t := s[0], s[..Scan(s).n] + tail;
    assert t[0] == c;
    if IsLetter(c) {
      IdentCut(s, tail);
    } else if IsDigit(c) {
      NumberCut(s, tail);
    } else if c == '"' {
      StringCut(s, t, 1, 0, false);
    } else if c == '\'' {
      RuneCut(s, tail);
    } else {
      SymbolCut(s, tail);
      NotAComment(s, t);
    }
  }

  /** Cutting a symbol off does not make a comment of it. */
  lemma NotAComment(s: string, t: string)
    requires s != "" && t != "" && t[0] == s[0] && !(s[0] == '/' && (At(s, 1, '/') || At(s, 1, '*')))
    requires |t| > 1 && t[1] != ' ' ==> At(s, 1, t[1])
    ensures !(t[0] == '/' && (At(t, 1, '/') || At(t, 1, '*')))
  {
  }

  /** The word an item is, if it is one. */
  function OwnWord(src: string, off: nat, item: Item): seq<(Kind, string)>
    requires FitsAt(src, off, item)
  {
    if item.TokenItem? then [(item.kind, src[off..off + item.n])] else []
  }

  /** The kinds and texts of the tokens other than newlines. */
  function WordsOf(src: string, off: nat, items: seq<Item>): seq<(Kind, string)>
    requires Fit(src, off, items)
    decreases |items|
  {
    if items == [] || items[0].Fail? then [] else OwnWord(src, off, items[0]) + WordsOf(src, off + items[0].n, items[1..])
  }

  function Plain(ts: seq<Token>): seq<(Kind, string)> {
    if ts == [] then [] else
    (if ts[0].kind.Newline? || ts[0].kind.Eof? then [] else [(ts[0].kind, ts[0].lexeme)]) + Plain(ts[1..])
  }

  lemma {:induction false} PlainConcat(a: seq<Token>, b: seq<Token>)
    ensures Plain(a + b) == Plain(a) + Plain(b)
    decreases |a|
  {
    if a == [] {
      assert a + b == b;
    } else {
      assert (a + b)[1..] == a[1..] + b;
      PlainConcat(a[1..], b);
    }
  }

  lemma PlainOne(t: Token)
    ensures Plain([t]) == if t.kind.Newline? || t.kind.Eof? then [] else [(t.kind, t.lexeme)]
  {
    assert [t][1..] == [];
  }

  ghost predicate RealKinds(items: seq<Item>) {
    forall item :: item in items && item.TokenItem? ==> !item.kind.Newline? && !item.kind.Eof?
  }

  lemma PlainOwn(src: string, off: nat, item: Item)
    requires off <= |src| && FitsAt(src, off, item) && RealKinds([item])
    ensures Plain(OwnToken(src, off, item)) == OwnWord(src, off, item)
  {
    assert item in [item];
    match item
    case NewlineItem(_) => PlainOne(TokenAt(src, off, Newline, ""));
    case TokenItem(kind, n) => PlainOne(TokenAt(src, off, kind, src[off..off + n]));
    case _ =>
  }

  /** The words are those of the tokens. */
  lemma {:induction false} WordsOfTokens(src: string, off: nat, items: seq<Item>)
    requires off <= |src| && Fit(src, off, items) && RealKinds(items)
    ensures Plain(TokensOf(src, off, items)) == WordsOf(src, off, items)
    decreases |items|
  {
    if items != [] && !items[0].Fail? {
      assert items[0] in items;
      PlainOwn(src, off, items[0]);
      WordsOfTokens(src, off + items[0].n, items[1..]);
      PlainConcat(OwnToken(src, off, items[0]), TokensOf(src, off + items[0].n, items[1..]));
    }
  }

  lemma {:induction false} ItemsAreReal(src: string, off: nat)
    requires off <= |src|
    ensures RealKinds(ItemsFrom(src, off))
    decreases |src| - off
  {
    hide Scan;
    if off < |src| && !Scan(src[off..]).Fail? { ItemsAreReal(src, off + Scan(src[off..]).n); }
  }

  lemma {:induction false} WordsAreWords(src: string, off: nat)
    requires off <= |src|
    ensures forall w :: w in WordsOf(src, off, ItemsFrom(src, off)) ==> IsWord(w)
    decreases |src| - off
  {
    hide Scan;
    if off < |src| && !Scan(src[off..]).Fail? {
      var item := Scan(src[off..]);
      assert ItemsFrom(src, off)[0] == item && ItemsFrom(src, off)[1..] == ItemsFrom(src, off + item.n);
      WordsAreWords(src, off + item.n);
      if item.TokenItem? { OwnWordIsWord(src, off); }
    }
  }

  lemma OwnWordIsWord(src: string, off: nat)
    requires off < |src| && Scan(src[off..]).TokenItem?
    ensures IsWord((Scan(src[off..]).kind, src[off..off + Scan(src[off..]).n]))
  {
    hide Scan;
    var n := Scan(src[off..]).n;
    TokenAlone(src[off..]);
    assert src[off..][..n] == src[off..off + n];
  }

  /** A token scans the same on its own. */
  lemma TokenAlone(s: string)
    requires s != "" && Scan(s).TokenItem?
    ensures IsWord((Scan(s).kind, s[..Scan(s).n]))
  {
    hide Scan;
    TokenCut(s, "");
    assert s[..Scan(s).n] + "" == s[..Scan(s).n];
  }

  /** The texts of the words, with single spaces between them. */
  function Spaced(ws: seq<(Kind, string)>): string {
    if ws == [] then "" else ws[0].1 + (if |ws| == 1 then "" else " " + Spaced(ws[1..]))
  }

  /** A text that lexes to the words ws. */
  ghost predicate LexesTo(s: string, ws: seq<(Kind, string)>) {
    !Failed(ItemsFrom(s, 0)) && WordsOf(s, 0, ItemsFrom(s, 0)) == ws
  }

  /** Lexing does not depend on what is already behind. */
  lemma {:induction false} ItemsBehind(before: string, s: string, off: nat)
    requires off <= |s|
    ensures ItemsFrom(before + s, |before| + off) == ItemsFrom(s, off)
    decreases |s| - off
  {
    hide Scan;
    assert (before + s)[|before| + off..] == s[off..];
    if off < |s| && !Scan(s[off..]).Fail? { ItemsBehind(before, s, off + Scan(s[off..]).n); }
  }

  lemma {:induction false} WordsBehind(before: string, s: string, off: nat, items: seq<Item>)
    requires Fit(s, off, items)
    ensures Fit(before + s, |before| + off, items)
    ensures WordsOf(before + s, |before| + off, items) == WordsOf(s, off, items)
    decreases |items|
  {
    if items != [] && !items[0].Fail? {
      assert (before + s)[|before| + off..|before| + off + items[0].n] == s[off..off + items[0].n];
      WordsBehind(before, s, off + items[0].n, items[1..]);
    }
  }

  /** One step, then a text that lexes. */
  lemma StepThenLexes(before: string, s: string, item: Item, ws: seq<(Kind, string)>)
    requires before != "" && Scan(before + s) == item && !item.Fail? && item.n == |before| && LexesTo(s, ws)
    ensures LexesTo(before + s, OwnWord(before + s, 0, item) + ws)
  {
    hide Scan, ItemsFrom, WordsOf, OwnWord;
    var all, items := before + s, ItemsFrom(s, 0);
    assert all[0..] == all;
    ItemsBehind(before, s, 0);
    WordsBehind(before, s, 0, items);
    OneStep(all, 0);
    FirstWord(all, 0, item, items);
  }

  lemma FirstWord(src: string, off: nat, item: Item, rest: seq<Item>)
    requires FitsAt(src, off, item) && !item.Fail? && Fit(src, off + item.n, rest)
    ensures Fit(src, off, [item] + rest)
    ensures WordsOf(src, off, [item] + rest) == OwnWord(src, off, item) + WordsOf(src, off + item.n, rest)
  {
    hide OwnWord;
    assert ([item] + rest)[1..] == rest;
  }

  lemma LexesWord(w: (Kind, string), tail: string, ws: seq<(Kind, string)>)
    requires IsWord(w) && Quiet(tail) && LexesTo(tail, ws)
    ensures LexesTo(w.1 + tail, [w] + ws)
  {
    hide Scan;
    assert w.1[..|w.1|] == w.1;
    TokenCut(w.1, tail);
    StepThenLexes(w.1, tail, TokenItem(w.0, |w.1|), ws);
    assert (w.1 + tail)[0..|w.1|] == w.1;
  }

  lemma LexesSpace(tail: string, ws: seq<(Kind, string)>)
    requires LexesTo(tail, ws)
    ensures LexesTo(" " + tail, ws)
  {
    assert Scan(" " + tail) == Skipped(1);
    StepThenLexes(" ", tail, Skipped(1), ws);
    assert [] + ws == ws;
  }

  /** What follows the first word. */
  function SpacedTail(ws: seq<(Kind, string)>): string
    requires ws != []
  {
    if |ws| == 1 then "" else " " + Spaced(ws[1..])
  }

  lemma {:induction false} SpacedWords(ws: seq<(Kind, string)>)
    requires forall w :: w in ws ==> IsWord(w)
    ensures LexesTo(Spaced(ws), ws)
    decreases |ws|
  {
    hide Scan, IsWord;
    if ws != [] {
      SpacedWords(ws[1..]);
      TailLexes(ws);
      assert IsWord(ws[0]) && ws == [ws[0]] + ws[1..];
      LexesWord(ws[0], SpacedTail(ws), ws[1..]);
    }
  }

  lemma TailLexes(ws: seq<(Kind, string)>)
    requires ws != [] && LexesTo(Spaced(ws[1..]), ws[1..])
    ensures LexesTo(SpacedTail(ws), ws[1..])
  {
    if |ws| > 1 { LexesSpace(Spaced(ws[1..]), ws[1..]); }
  }

  lemma PlainOfLex(src: string)
    ensures Plain(Lex(src).0) == WordsOf(src, 0, ItemsFrom(src, 0)) && (Lex(src).1.None? <==> !Failed(ItemsFrom(src, 0)))
  {
    var items := ItemsFrom(src, 0);
    ItemsAreReal(src, 0);
    WordsOfTokens(src, 0, items);
    if !Failed(items) {
      var eof := TokenAt(src, |src|, Eof, "");
      PlainConcat(TokensOf(src, 0, items), [eof]);
      PlainOne(eof);
    }
  }

  /** Joining the lexemes of a source with single spaces and lexing again gives the same kinds
      and lexemes. */
  lemma RelexingRoundTrip(src: string)
    requires Lex(src).1.None?
    ensures var ws := Plain(Lex(src).0); Lex(Spaced(ws)).1.None? && Plain(Lex(Spaced(ws)).0) == ws
  {
    PlainOfLex(src);
    WordsAreWords(src, 0);
    SpacedWords(Plain(Lex(src).0));
    PlainOfLex(Spaced(Plain(Lex(src).0)));
  }

  // ---------------------------------------------------------------- coverage

  predicate EndsComment(t: string, i: nat) { At(t, i, '*') && At(t, i + 1, '/') }

  /** A text no token covers: a space or a tab, or a comment. */
  ghost predicate IsGap(t: string) { t == " " || t == "\t" || IsLineComment(t) || IsBlockComment(t) }

  ghost predicate IsLineComment(t: string) { StartsWith(t, "//") && forall c :: c in t ==> NotLineEnd(c) }

  ghost predicate IsBlockComment(t: string) {
    StartsWith(t, "/*") && |t| >= 4 && EndsComment(t, |t| - 2) && forall i :: 2 <= i < |t| - 2 ==> !EndsComment(t, i)
  }

  predicate IsLineEnd(t: string) { t == "\n" || t == "\r\n" }

  lemma {:induction false} CommentEndsFirst(s: string, i: nat)
    requires i <= |s| && CommentEnd(s, i).Some?
    ensures var n := CommentEnd(s, i).value;
            i + 2 <= n && EndsComment(s, n - 2) && forall j :: i <= j < n - 2 ==> !EndsComment(s, j)
    decreases |s| - i
  {
    if !EndsComment(s, i) { CommentEndsFirst(s, i + 1); }
  }

  lemma BlockCommentCovers(s: string)
    requires At(s, 0, '/') && At(s, 1, '*') && CommentEnd(s, 2).Some?
    ensures IsBlockComment(s[..CommentEnd(s, 2).value])
  {
    CommentEndsFirst(s, 2);
    var n := CommentEnd(s, 2).value;
    var t := s[..n];
    assert t[..2] == "/*";
    forall i | 2 <= i < n - 2 ensures !EndsComment(t, i) { assert !EndsComment(s, i); }
  }

  /** Every character is accounted for: what a step consumes is a token, a line end or a gap. */
  lemma StepCovers(s: string)
    requires s != "" && !Scan(s).Fail?
    ensures Scan(s).Skipped? ==> IsGap(s[..Scan(s).n])
    ensures Scan(s).Skipped? && StartsWith(s, "//") ==> Scan(s).n == |s| || s[Scan(s).n] in ['\n', '\r']
    ensures Scan(s).NewlineItem? ==> IsLineEnd(s[..Scan(s).n])
  {
    if s[0] == '/' && At(s, 1, '/') {
      assert Scan(s).n >= 2 && s[..Scan(s).n][..2] == "//";
    } else if s[0] == '/' && At(s, 1, '*') {
      BlockCommentCovers(s);
    }
  }

  /** The pieces the steps consume, in order. */
  function Pieces(src: string, off: nat, items: seq<Item>): seq<string>
    requires Fit(src, off, items)
    decreases |items|
  {
    if items == [] || items[0].Fail? then [] else [src[off..off + items[0].n]] + Pieces(src, off + items[0].n, items[1..])
  }

  function Concat(ps: seq<string>): string { if ps == [] then "" else ps[0] + Concat(ps[1..]) }

  /** They are the whole source, or what is before the failure. */
  lemma {:induction false} PiecesCover(src: string, off: nat)
    requires off <= |src|
    ensures Concat(Pieces(src, off, ItemsFrom(src, off))) <= src[off..]
    ensures !Failed(ItemsFrom(src, off)) ==> Concat(Pieces(src, off, ItemsFrom(src, off))) == src[off..]
    decreases |src| - off
  {
    hide Scan, Pieces, Concat, Fit;
    if off == |src| || Scan(src[off..]).Fail? {
      NoPiece(src, off, ItemsFrom(src, off));
    } else {
      var n := Scan(src[off..]).n;
      var rest := ItemsFrom(src, off + n);
      PiecesCover(src, off + n);
      OneStep(src, off);
      FirstPiece(src, off, Scan(src[off..]), rest);
      SplitAt(src, off, n);
      LongerPrefix(src[off..off + n], Concat(Pieces(src, off + n, rest)), src[off + n..]);
    }
  }

  /** A step that does not fail, and the rest of the run. */
  lemma OneStep(src: string, off: nat)
    requires off < |src| && !Scan(src[off..]).Fail?
    ensures FitsAt(src, off, Scan(src[off..]))
    ensures ItemsFrom(src, off) == [Scan(src[off..])] + ItemsFrom(src, off + Scan(src[off..]).n)
    ensures Failed(ItemsFrom(src, off)) <==> Failed(ItemsFrom(src, off + Scan(src[off..]).n))
  {
    hide Scan;
  }

  lemma NoPiece(src: string, off: nat, items: seq<Item>)
    requires Fit(src, off, items) && (items == [] || items[0].Fail?)
    ensures Concat(Pieces(src, off, items)) == ""
  {
  }

  lemma LongerPrefix(piece: string, a: string, b: string)
    requires a <= b
    ensures piece + a <= piece + b
  {
  }

  lemma FirstPiece(src: string, off: nat, item: Item, rest: seq<Item>)
    requires off <= |src| && FitsAt(src, off, item) && !item.Fail? && Fit(src, off + item.n, rest)
    ensures Fit(src, off, [item] + rest)
    ensures Concat(Pieces(src, off, [item] + rest)) == src[off..off + item.n] + Concat(Pieces(src, off + item.n, rest))
  {
    assert ([item] + rest)[1..] == rest;
    var piece, pieces := src[off..off + item.n], Pieces(src, off + item.n, rest);
    assert Pieces(src, off, [item] + rest) == [piece] + pieces;
    assert ([piece] + pieces)[1..] == pieces;
  }

  lemma SplitAt(src: string, off: nat, n: nat)
    requires off + n <= |src|
    ensures src[off..] == src[off..off + n] + src[off + n..]
  {
  }

  /** Lines count the line ends before a position, columns the characters since the last one. */
  lemma {:induction false} PositionsCount(t: string)
    ensures var (line, col) := PosAfter(t);
            && line == 1 + multiset(t)['\n'] && 1 <= col <= |t| + 1
            && (forall i :: |t| - (col - 1) <= i < |t| ==> t[i] != '\n')
            && (line > 1 ==> col <= |t| && t[|t| - col] == '\n')
            && (line == 1 ==> col == |t| + 1)
    decreases |t|
  {
    if t != "" {
      assert t == t[..|t| - 1] + [t[|t| - 1]];
      PositionsCount(t[..|t| - 1]);
    }
  }
}
