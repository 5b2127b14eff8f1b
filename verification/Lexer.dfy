/** The lexer as the code runs it (internal/lexer/lexer.go): an offset, a line and a column that
    are moved forward in loops. Every method does what the scanner says of the text left. */
module LexerMachine {
  import opened Wrappers
  import opened Lexing
  import TokenKinds

  lemma FirstItem(src: string, off: nat)
    requires off < |src|
    ensures var items, item := ItemsFrom(src, off), Scan(src[off..]);
            items != [] && items[0] == item && items[1..] == if item.Fail? then [] else ItemsFrom(src, off + item.n)
  {
  }

  /** What has been emitted, followed by what the items left emit, is what the source emits. */
  ghost predicate Progress(src: string, off: nat, items: seq<Item>, tokens: seq<Token>) {
    var all := ItemsFrom(src, 0);
    && off <= |src| && Fit(src, off, items)
    && (Failed(all) <==> Failed(items))
    && tokens + TokensOf(src, off, items) == TokensOf(src, 0, all)
    && (Failed(items) ==> DiagOf(src, off, items) == DiagOf(src, 0, all))
  }

  /** A step that fails is the last. */
  lemma Stopped(src: string, off: nat, items: seq<Item>, tokens: seq<Token>)
    requires Progress(src, off, items, tokens) && items != [] && items[0].Fail?
    ensures Failed(ItemsFrom(src, 0)) && tokens == TokensOf(src, 0, ItemsFrom(src, 0))
    ensures DiagOf(src, 0, ItemsFrom(src, 0)) == DiagAt(src, off + items[0].at, items[0].code)
  {
    assert tokens + [] == tokens;
  }

  lemma Started(src: string)
    ensures Progress(src, 0, ItemsFrom(src, 0), [])
  {
    hide Scan;
  }

  /** At the end everything has been emitted. */
  lemma Finished(src: string, tokens: seq<Token>)
    requires Progress(src, |src|, ItemsFrom(src, |src|), tokens)
    ensures !Failed(ItemsFrom(src, 0)) && tokens == TokensOf(src, 0, ItemsFrom(src, 0))
  {
    hide Scan;
    assert tokens + [] == tokens;
  }

  lemma FailedTail(items: seq<Item>)
    requires items != [] && !items[0].Fail?
    ensures Failed(items) <==> Failed(items[1..])
  {
  }

  /** A step that does not fail emits its own token. */
  lemma Stepped(src: string, off: nat, items: seq<Item>, tokens: seq<Token>)
    requires Progress(src, off, items, tokens) && items != [] && !items[0].Fail?
    ensures Progress(src, off + items[0].n, items[1..], tokens + OwnToken(src, off, items[0]))
  {
    FailedTail(items);
    var own, rest := OwnToken(src, off, items[0]), TokensOf(src, off + items[0].n, items[1..]);
    Associative(tokens, own, rest);
  }

  lemma Associative(a: seq<Token>, b: seq<Token>, c: seq<Token>)
    ensures a + (b + c) == (a + b) + c
  {
  }

  /** A letter or digit that is no digit of the radix spoils the literal. */
  lemma BadDigit(s: string, i: nat, digitOk: char -> bool)
    requires i < |s| && IsIdentChar(s[i]) && !digitOk(s[i]) && s[i] != '_' && forall j :: 0 <= j < i ==> IsIdentChar(s[j])
    ensures !RadixOk(s[..Span(s, IsIdentChar)], digitOk)
  {
    var n := Span(s, IsIdentChar);
    assert i < n;
    assert s[..n][i] in s[..n];
  }

  class Lexer {
    const src: string
    var offset: nat
    var line: nat
    var col: nat
    var tokens: seq<Token>

    constructor (src: string)
      ensures this.src == src && offset == 0 && tokens == [] && Valid()
    {
      this.src, offset, line, col, tokens := src, 0, 1, 1, [];
    }

    /** Line and column are those of the offset. */
    ghost predicate Valid()
      reads this
    {
      offset <= |src| && (line, col) == PosAfter(src[..offset])
    }

    function Left(): string
      requires offset <= |src|
      reads this
    {
      src[offset..]
    }

    /** The state after one step of the scanner from `from` on, with the tokens `before`. */
    ghost predicate Did(item: Item, from: nat, before: seq<Token>, err: Option<Diag>)
      reads this
      requires from <= |src| && FitsAt(src, from, item)
    {
      if item.Fail? then err == Some(DiagAt(src, from + item.at, item.code)) && tokens == before
      else err == None && offset == from + item.n && tokens == before + OwnToken(src, from, item)
    }

    method Advance(n: nat)
      requires Valid() && offset + n <= |src|
      modifies this`offset, this`line, this`col
      ensures Valid() && offset == old(offset) + n
    {
      for i := 0 to n
        invariant offset == old(offset) && (line, col) == PosAfter(src[..offset + i])
      {
        assert src[..offset + i + 1] == src[..offset + i] + [src[offset + i]];
        if src[offset + i] == '\n' {
          line, col := line + 1, 1;
        } else {
          col := col + 1;
        }
      }
      offset := offset + n;
    }

    method Emit(kind: Kind, lexeme: string, line: nat, col: nat)
      modifies this`tokens
      ensures tokens == old(tokens) + [Token(kind, lexeme, line, col)]
    {
      tokens := tokens + [Token(kind, lexeme, line, col)];
    }

    /** Emits the token consumed since `from`, where the line and column were saved. */
    method EmitFrom(kind: Kind, from: nat, line: nat, col: nat)
      requires from < offset <= |src| && (line, col) == PosAfter(src[..from])
      modifies this`tokens
      ensures Did(TokenItem(kind, offset - from), from, old(tokens), None)
    {
      Emit(kind, src[from..offset], line, col);
    }

    /** Consumes characters while they satisfy p. */
    method AdvanceWhile(p: char -> bool)
      requires Valid()
      modifies this`offset, this`line, this`col
      ensures Valid() && offset == old(offset) + Span(old(Left()), p)
    {
      while offset < |src| && p(src[offset])
        invariant Valid() && old(offset) <= offset
        invariant offset - old(offset) + Span(Left(), p) == Span(old(Left()), p)
        decreases |src| - offset
      {
        assert Left()[1..] == src[offset + 1..];
        Advance(1);
      }
    }

    /** LexFile. */
    method LexFile() returns (err: Option<Diag>)
      requires Valid() && offset == 0 && tokens == []
      modifies this
      ensures (tokens, err) == Lex(src)
      ensures TokenKinds.IsLexed(src, tokens, err)
    {
      hide TokenKinds.IsLexed;
      TokenKinds.LexIsLexed(src);
      err := LexItems();
      if err == None {
        assert src[..|src|] == src;
        Emit(Eof, "", line, col);
      }
    }

    /** The loop over `next`. */
    method LexItems() returns (err: Option<Diag>)
      requires Valid() && offset == 0 && tokens == []
      modifies this
      ensures Valid() && tokens == TokensOf(src, 0, ItemsFrom(src, 0))
      ensures if Failed(ItemsFrom(src, 0)) then err == Some(DiagOf(src, 0, ItemsFrom(src, 0))) else err == None && offset == |src|
    {
      hide Scan, Progress, OwnToken;
      ghost var items := ItemsFrom(src, 0);
      Started(src);
      while offset < |src|
        invariant Valid() && items == ItemsFrom(src, offset) && Progress(src, offset, items, tokens)
        decreases |src| - offset
      {
        ghost var from, before := offset, tokens;
        FirstItem(src, offset);
        err := Next();
        if err.Some? {
          Stopped(src, from, items, before);
          return;
        }
        Stepped(src, from, items, before);
        items := items[1..];
      }
      Finished(src, tokens);
      return None;
    }

    /** next. */
    method Next() returns (err: Option<Diag>)
      requires Valid() && offset < |src|
      modifies this
      ensures Valid() && Did(Scan(old(Left())), old(offset), old(tokens), err)
    {
      var r := src[offset];
      if r == ' ' || r == '\t' {
        Advance(1);
        return None;
      }
      if r == '\n' {
        var startLine, startCol := line, col;
        Advance(1);
        Emit(Newline, "", startLine, startCol);
        return None;
      }
      if r == '\r' {
        var startLine, startCol := line, col;
        if !At(src, offset + 1, '\n') { return Some(Diag(Unexpected, startLine, startCol)); }
        Advance(2);
        Emit(Newline, "", startLine, startCol);
        return None;
      }
      if r == '/' && At(src, offset + 1, '/') {
        AdvanceWhile(NotLineEnd);
        return None;
      }
      if r == '/' && At(src, offset + 1, '*') {
        err := BlockComment();
        return;
      }
      if IsLetter(r) {
        err := Ident();
      } else if IsDigit(r) {
        err := NumberLit();
      } else if r == '"' {
        err := StringLit();
      } else if r == '\'' {
        err := RuneLit();
      } else {
        err := Symbol();
      }
    }

    method BlockComment() returns (err: Option<Diag>)
      requires Valid() && At(src, offset, '/') && At(src, offset + 1, '*')
      modifies this
      ensures Valid() && Did(Scan(old(Left())), old(offset), old(tokens), err)
    {
      var startLine, startCol := line, col;
      ghost var from, s := offset, Left();
      Advance(2);
      while offset < |src|
        invariant Valid() && from + 2 <= offset && tokens == old(tokens)
        invariant CommentEnd(s, offset - from) == CommentEnd(s, 2)
        decreases |src| - offset
      {
        if At(src, offset, '*') && At(src, offset + 1, '/') {
          Advance(2);
          return None;
        }
        Advance(1);
      }
      return Some(Diag(Unterminated, startLine, startCol));
    }

    method Ident() returns (err: Option<Diag>)
      requires Valid() && offset < |src| && IsLetter(src[offset])
      modifies this
      ensures Valid() && Did(IdentItem(old(Left())), old(offset), old(tokens), err)
    {
      var startLine, startCol, startOffset := line, col, offset;
      AdvanceWhile(IsIdentChar);
      var lex := src[startOffset..offset];
      assert lex == old(Left())[..Span(old(Left()), IsIdentChar)];
      if StartsWith(lex, "_aril") { return Some(Diag(Reserved, startLine, startCol)); }
      EmitFrom(WordKind(lex), startOffset, startLine, startCol);
      return None;
    }

    method Symbol() returns (err: Option<Diag>)
      requires Valid() && offset < |src|
      modifies this
      ensures Valid() && Did(Lexing.Symbol(old(Left())), old(offset), old(tokens), err)
    {
      var startLine, startCol, startOffset := line, col, offset;
      ghost var s := Left();
      for k := 0 to |MULTI_CHAR_OPS|
        invariant Valid() && offset == startOffset && tokens == old(tokens) && (line, col) == (startLine, startCol)
        invariant FirstOp(s, k) == FirstOp(s, 0)
      {
        var op := MULTI_CHAR_OPS[k];
        if StartsWith(src[offset..], op) {
          Advance(|op|);
          EmitFrom(Op, startOffset, startLine, startCol);
          return None;
        }
      }
      var r := src[offset];
      if r in SINGLE_CHAR_OPS {
        Advance(1);
        EmitFrom(Op, startOffset, startLine, startCol);
        return None;
      }
      if r in PUNCT_CHARS {
        Advance(1);
        EmitFrom(Punct, startOffset, startLine, startCol);
        return None;
      }
      return Some(Diag(Unexpected, startLine, startCol));
    }

    method NumberLit() returns (err: Option<Diag>)
      requires Valid() && DigitAt(src, offset)
      modifies this
      ensures Valid() && Did(Lexing.NumberLit(old(Left())), old(offset), old(tokens), err)
    {
      hide Span, Mantissa, PosAfter;
      if src[offset] == '0' && AtAny(src, offset + 1, "xX") {
        err := IntLitRadix(IsHexDigit);
        return;
      }
      if src[offset] == '0' && AtAny(src, offset + 1, "oO") {
        err := IntLitRadix(IsOctDigit);
        return;
      }
      if src[offset] == '0' && AtAny(src, offset + 1, "bB") {
        err := IntLitRadix(IsBinDigit);
        return;
      }
      err := Decimal();
    }

    method Decimal() returns (err: Option<Diag>)
      requires Valid() && DigitAt(src, offset)
      modifies this
      ensures Valid()
      ensures Did(NumberEnd(old(Left()), Mantissa(old(Left())).0, Mantissa(old(Left())).1), old(offset), old(tokens), err)
    {
      hide Mantissa, PosAfter, Span;
      var startLine, startCol, startOffset := line, col, offset;
      var kind := ConsumeMantissa();
      err := FinishNumber(kind, startOffset, startLine, startCol);
    }

    /** Behind the mantissa. */
    method FinishNumber(kind: Kind, from: nat, startLine: nat, startCol: nat) returns (err: Option<Diag>)
      requires Valid() && from < offset && (startLine, startCol) == PosAfter(src[..from]) && !kind.Newline? && !kind.Eof?
      modifies this
      ensures Valid() && Did(NumberEnd(src[from..], old(offset) - from, kind), from, old(tokens), err)
    {
      hide Exponent, Span, PosAfter;
      ghost var s, n := src[from..], offset - from;
      assert AtAny(s, n, "eE") == AtAny(src, offset, "eE");
      if AtAny(src, offset, "eE") {
        assert Left() == s[n..];
        err := ConsumeExponent();
        if err.Some? { return; }
        EmitFrom(FloatLit, from, startLine, startCol);
      } else {
        EmitFrom(kind, from, startLine, startCol);
      }
      return None;
    }

    method ConsumeMantissa() returns (kind: Kind)
      requires Valid()
      modifies this`offset, this`line, this`col
      ensures Valid() && (offset - old(offset), kind) == Mantissa(old(Left()))
    {
      hide Span, PosAfter;
      ghost var s, from := Left(), offset;
      kind := IntLit;
      AdvanceWhile(IsDigitOrUnderscore);
      ghost var n := offset - from;
      assert At(s, n, '.') == At(src, offset, '.') && DigitAt(s, n + 1) == DigitAt(src, offset + 1);
      if At(src, offset, '.') && DigitAt(src, offset + 1) {
        Advance(1);
        assert Left() == s[n + 1..];
        AdvanceWhile(IsDigitOrUnderscore);
        kind := FloatLit;
      }
    }

    /** At the e: the exponent, or the failure, which is reported there. */
    method ConsumeExponent() returns (err: Option<Diag>)
      requires Valid() && offset < |src|
      modifies this`offset, this`line, this`col
      ensures Valid()
      ensures match Exponent(old(Left()))
              case Some(n) => err == None && offset == old(offset) + n
              case None => err == Some(DiagAt(src, old(offset), BadNumber))
    {
      var startLine, startCol := line, col;
      ghost var s, from := Left(), offset;
      Advance(1);
      if AtAny(src, offset, "+-") { Advance(1); }
      assert Left() == s[offset - from..];
      if !DigitAt(src, offset) { return Some(Diag(BadNumber, startLine, startCol)); }
      AdvanceWhile(IsDigit);
      return None;
    }

    /** intLitRadix, from the prefix on. */
    method IntLitRadix(digitOk: char -> bool) returns (err: Option<Diag>)
      requires Valid() && offset + 2 <= |src| && (forall c :: digitOk(c) ==> IsIdentChar(c))
      modifies this
      ensures Valid() && Did(Radix(old(Left()), digitOk), old(offset), old(tokens), err)
    {
      hide Span, PosAfter;
      var startLine, startCol, startOffset := line, col, offset;
      ghost var s := Left();
      Advance(2);
      assert Left() == s[2..];
      var ok := ConsumeDigits(digitOk);
      if !ok { return Some(Diag(BadNumber, startLine, startCol)); }
      EmitFrom(IntLit, startOffset, startLine, startCol);
      return None;
    }

    method ConsumeDigits(digitOk: char -> bool) returns (ok: bool)
      requires Valid() && (forall c :: digitOk(c) ==> IsIdentChar(c))
      modifies this`offset, this`line, this`col
      ensures Valid() && ok == RadixOk(old(Left())[..Span(old(Left()), IsIdentChar)], digitOk)
      ensures ok ==> offset == old(offset) + Span(old(Left()), IsIdentChar)
    {
      hide Span, PosAfter;
      ghost var s, from := Left(), offset;
      var hasDigit := false;
      while offset < |src| && (digitOk(src[offset]) || IsIdentChar(src[offset]))
        invariant Valid() && from <= offset
        invariant forall i :: 0 <= i < offset - from ==> IsIdentChar(s[i]) && (digitOk(s[i]) || s[i] == '_')
        invariant hasDigit <==> exists i :: 0 <= i < offset - from && s[i] != '_'
        decreases |src| - offset
      {
        ghost var i := offset - from;
        assert src[offset] == s[i];
        if !digitOk(src[offset]) && src[offset] != '_' {
          BadDigit(s, i, digitOk);
          return false;
        }
        if src[offset] != '_' { hasDigit := true; }
        Advance(1);
      }
      assert offset < |src| ==> src[offset] == s[offset - from];
      SpanExact(s, IsIdentChar, offset - from);
      ghost var digits := s[..offset - from];
      if hasDigit {
        ghost var i :| 0 <= i < offset - from && s[i] != '_';
        assert digits[i] in digits;
      }
      return hasDigit;
    }

    method StringLit() returns (err: Option<Diag>)
      requires Valid() && At(src, offset, '"')
      modifies this
      ensures Valid() && Did(StringFrom(old(Left()), 1, 0, false), old(offset), old(tokens), err)
    {
      var startLine, startCol, startOffset := line, col, offset;
      ghost var s := Left();
      err := None;
      Advance(1);
      var holeDepth: nat, sawInterp, over := 0, false, false;
      while !over
        invariant Valid() && !over ==> startOffset < offset && tokens == old(tokens)
        invariant Valid() && !over ==> StringFrom(s, offset - startOffset, holeDepth, sawInterp) == StringFrom(s, 1, 0, false)
        invariant Valid() && over ==> Did(StringFrom(s, 1, 0, false), startOffset, old(tokens), err)
        invariant Valid()
        decreases !over, |src| - offset
      {
        over, err, holeDepth, sawInterp := InString(s, startOffset, startLine, startCol, holeDepth, sawInterp);
      }
    }

    /** A round of the loop; `over` when the literal ends, or fails. */
    method InString(ghost s: string, start: nat, startLine: nat, startCol: nat, holeDepth: nat, sawInterp: bool)
      returns (over: bool, err: Option<Diag>, depth: nat, interp: bool)
      requires Valid() && start < offset && s == src[start..] && (startLine, startCol) == PosAfter(src[..start])
      modifies this
      ensures Valid()
      ensures over == StringRound(s, old(offset) - start, holeDepth, sawInterp).Ends?
      ensures match StringRound(s, old(offset) - start, holeDepth, sawInterp)
              case GoesOn(i, d, b) => err == None && offset == start + i && depth == d && interp == b && tokens == old(tokens)
              case Ends(item) => Did(item, start, old(tokens), err)
    {
      over, err, depth, interp := true, None, holeDepth, sawInterp;
      if offset == |src| || !NotLineEnd(src[offset]) { return true, Some(Diag(Unterminated, startLine, startCol)), depth, interp; }
      var r := src[offset];
      assert r == s[offset - start];
      if holeDepth == 0 && r == '"' {
        Advance(1);
        EmitFrom(if sawInterp then StringInterp else Lexing.StringLit, start, startLine, startCol);
        return;
      }
      over, err, depth, interp := InText(s, start, holeDepth, sawInterp);
    }

    /** A round that is not the end of the text. */
    method InText(ghost s: string, ghost start: nat, holeDepth: nat, sawInterp: bool)
      returns (over: bool, err: Option<Diag>, depth: nat, interp: bool)
      requires Valid() && start < offset < |src| && s == src[start..] && NotLineEnd(src[offset]) && !(holeDepth == 0 && src[offset] == '"')
      modifies this`offset, this`line, this`col
      ensures Valid()
      ensures over == err.Some?
      ensures match StringRound(s, old(offset) - start, holeDepth, sawInterp)
              case GoesOn(i, d, b) => err == None && offset == start + i && depth == d && interp == b
              case Ends(item) => item.Fail? && err == Some(DiagAt(src, start + item.at, item.code))
    {
      var r := src[offset];
      over, err, depth, interp := false, None, holeDepth, sawInterp;
      assert r == s[offset - start] && At(src, offset + 1, '{') == At(s, offset - start + 1, '{');
      if r == '$' && holeDepth == 0 && At(src, offset + 1, '{') {
        depth, interp := 1, true;
        Advance(2);
      } else if holeDepth > 0 {
        if r == '"' { return true, Some(Diag(StringInHole, line, col)), depth, interp; }
        if r == '{' { depth := depth + 1; } else if r == '}' { depth := depth - 1; }
        Advance(1);
      } else if r == '\\' {
        assert Left() == s[offset - start..];
        err := ConsumeEscape();
        over := err.Some?;
      } else {
        Advance(1);
      }
    }

    method RuneLit() returns (err: Option<Diag>)
      requires Valid() && At(src, offset, '\'')
      modifies this
      ensures Valid() && Did(Rune(old(Left())), old(offset), old(tokens), err)
    {
      hide PosAfter;
      var startLine, startCol, startOffset := line, col, offset;
      ghost var s := Left();
      Advance(1);
      assert Left() == s[1..];
      if offset == |src| { return Some(Diag(Unterminated, startLine, startCol)); }
      var r := src[offset];
      assert r == s[1];
      if !NotLineEnd(r) || r == '\'' { return Some(Diag(BadRune, startLine, startCol)); }
      if r == '\\' {
        err := ConsumeEscape();
        if err.Some? { return; }
      } else {
        Advance(1);
      }
      if !At(src, offset, '\'') { return Some(Diag(BadRune, startLine, startCol)); }
      Advance(1);
      EmitFrom(Lexing.RuneLit, startOffset, startLine, startCol);
      return None;
    }

    /** At the backslash; failures are reported there. */
    method ConsumeEscape() returns (err: Option<Diag>)
      requires Valid() && At(src, offset, '\\')
      modifies this`offset, this`line, this`col
      ensures Valid()
      ensures match Escape(old(Left()))
              case Consumed(n) => err == None && offset == old(offset) + n
              case Bad(code) => err == Some(DiagAt(src, old(offset), code))
    {
      hide PosAfter;
      var startLine, startCol := line, col;
      ghost var s := Left();
      Advance(1);
      if offset == |src| { return Some(Diag(Unterminated, startLine, startCol)); }
      var r := src[offset];
      assert r == s[1];
      assert forall i :: 0 <= i < |s| ==> HexAt(s, i) == HexAt(src, offset - 1 + i);
      if r in "ntr\\\"'0" {
        Advance(1);
        return None;
      }
      if r == 'x' {
        Advance(1);
        err := ConsumeHexDigits(2, startLine, startCol);
      } else if r == 'u' {
        Advance(1);
        err := ConsumeHexDigits(4, startLine, startCol);
      } else {
        err := Some(Diag(BadEscape, startLine, startCol));
      }
    }

    method ConsumeHexDigits(n: nat, startLine: nat, startCol: nat) returns (err: Option<Diag>)
      requires Valid()
      modifies this`offset, this`line, this`col
      ensures Valid()
      ensures if forall i :: old(offset) <= i < old(offset) + n ==> HexAt(src, i) then err == None && offset == old(offset) + n
              else err == Some(Diag(BadEscape, startLine, startCol))
    {
      for i := 0 to n
        invariant Valid() && offset == old(offset) + i && forall j :: old(offset) <= j < offset ==> HexAt(src, j)
      {
        if !HexAt(src, offset) { return Some(Diag(BadEscape, startLine, startCol)); }
        Advance(1);
      }
      return None;
    }
  }
}
