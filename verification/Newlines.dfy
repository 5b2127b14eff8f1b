/** Newline suppression (suppressBracketNewlines, internal/parser/parser.go): newlines inside
    `(…)` and `[…]` are dropped, and a `{` starts afresh. */
module Newlines {
  import opened Wrappers
  import opened Lexing

  /** The loop's variables; the last element of `saved` is the innermost. */
  datatype State = State(depth: nat, saved: seq<nat>, out: seq<Token>)

  predicate IsPunct(t: Token, lexemes: set<string>) { t.kind.Punct? && t.lexeme in lexemes }

  predicate Opens(t: Token) { IsPunct(t, {"(", "["}) }
  predicate Closes(t: Token) { IsPunct(t, {")", "]"}) }
  predicate OpensBlock(t: Token) { IsPunct(t, {"{"}) }
  predicate ClosesBlock(t: Token) { IsPunct(t, {"}"}) }

  function Next(st: State, t: Token): State {
    if t.kind.Newline? && st.depth > 0 then st else
    var kept := st.(out := st.out + [t]);
    if Opens(t) then kept.(depth := st.depth + 1)
    else if Closes(t) then kept.(depth := if st.depth > 0 then st.depth - 1 else 0)
    else if OpensBlock(t) then kept.(saved := st.saved + [st.depth], depth := 0)
    else if ClosesBlock(t) && st.saved != [] then kept.(depth := st.saved[|st.saved| - 1], saved := st.saved[..|st.saved| - 1])
    else kept
  }

  function After(ts: seq<Token>): State
    decreases |ts|
  {
    if ts == [] then State(0, [], []) else Next(After(ts[..|ts| - 1]), ts[|ts| - 1])
  }

  function Suppressed(ts: seq<Token>): seq<Token> { After(ts).out }

  method SuppressBracketNewlines(toks: seq<Token>) returns (out: seq<Token>)
    ensures out == Suppressed(toks)
  {
    out := [];
    var depth: nat, stack: seq<nat> := 0, [];
    for i := 0 to |toks|
      invariant State(depth, stack, out) == After(toks[..i])
    {
      assert toks[..i + 1][..i] == toks[..i];
      var t := toks[i];
      if t.kind.Newline? && depth > 0 { continue; }
      out := out + [t];
      if !t.kind.Punct? { continue; }
      if t.lexeme == "(" || t.lexeme == "[" {
        depth := depth + 1;
      } else if t.lexeme == ")" || t.lexeme == "]" {
        if depth > 0 { depth := depth - 1; }
      } else if t.lexeme == "{" {
        stack := stack + [depth];
        depth := 0;
      } else if t.lexeme == "}" {
        if |stack| > 0 {
          depth := stack[|stack| - 1];
          stack := stack[..|stack| - 1];
        }
      }
    }
    assert toks[..|toks|] == toks;
  }

  lemma AfterOneMore(ts: seq<Token>, t: Token)
    ensures After(ts + [t]) == Next(After(ts), t)
  {
    assert (ts + [t])[..|ts|] == ts;
  }

  // ---------------------------------------------------------------- what is kept

  function NotNewlines(ts: seq<Token>): seq<Token>
    decreases |ts|
  {
    if ts == [] then [] else
    NotNewlines(ts[..|ts| - 1]) + if ts[|ts| - 1].kind.Newline? then [] else [ts[|ts| - 1]]
  }

  lemma NotNewlinesOneMore(ts: seq<Token>, t: Token)
    ensures NotNewlines(ts + [t]) == NotNewlines(ts) + if t.kind.Newline? then [] else [t]
  {
    assert (ts + [t])[..|ts|] == ts;
  }

  lemma NextKeeps(st: State, t: Token)
    ensures Next(st, t).out == if t.kind.Newline? && st.depth > 0 then st.out else st.out + [t]
  {
    hide Opens, Closes, OpensBlock, ClosesBlock;
  }

  /** Every other token is kept, in order. */
  lemma {:induction false} OthersAreKept(ts: seq<Token>)
    ensures NotNewlines(Suppressed(ts)) == NotNewlines(ts)
    decreases |ts|
  {
    hide Next;
    if ts != [] {
      var before, t := ts[..|ts| - 1], ts[|ts| - 1];
      OthersAreKept(before);
      NextKeeps(After(before), t);
      NotNewlinesOneMore(Suppressed(before), t);
    }
  }

  /** Suppressing again changes nothing, for any token stream. */
  lemma {:induction false} SuppressionIsIdempotent(ts: seq<Token>)
    ensures After(Suppressed(ts)) == After(ts)
    ensures Suppressed(Suppressed(ts)) == Suppressed(ts)
    decreases |ts|
  {
    if ts != [] {
      var before, t := ts[..|ts| - 1], ts[|ts| - 1];
      SuppressionIsIdempotent(before);
      AfterOneMore(Suppressed(before), t);
    }
  }

  // ---------------------------------------------------------------- well-nested streams

  datatype Bracket = Round | Square | Curly
  datatype Mark = Open(b: Bracket) | Close(b: Bracket) | NoMark

  /** The bracket a token is, by its text. */
  function MarkOf(t: Token): Mark {
    if t.kind != Punct then NoMark else
    match t.lexeme
    case "(" => Open(Round)
    case ")" => Close(Round)
    case "[" => Open(Square)
    case "]" => Close(Square)
    case "{" => Open(Curly)
    case "}" => Close(Curly)
    case _ => NoMark
  }

  /** The open brackets, innermost last, behind t; None when t closes another kind. */
  function OpenNext(open: seq<Bracket>, t: Token): Option<seq<Bracket>> {
    match MarkOf(t)
    case Open(b) => Some(open + [b])
    case Close(b) => if open != [] && open[|open| - 1] == b then Some(open[..|open| - 1]) else None
    case NoMark => Some(open)
  }

  lemma MarksAreTests(t: Token)
    ensures Opens(t) <==> MarkOf(t) in [Open(Round), Open(Square)]
    ensures Closes(t) <==> MarkOf(t) in [Close(Round), Close(Square)]
    ensures OpensBlock(t) <==> MarkOf(t) == Open(Curly)
    ensures ClosesBlock(t) <==> MarkOf(t) == Close(Curly)
  {
  }

  function OpenBrackets(ts: seq<Token>): Option<seq<Bracket>>
    decreases |ts|
  {
    if ts == [] then Some([]) else
    match OpenBrackets(ts[..|ts| - 1]) case Some(open) => OpenNext(open, ts[|ts| - 1]) case None => None
  }

  /** The brackets open inside the innermost block. */
  function DepthOf(open: seq<Bracket>): nat {
    if open == [] || open[|open| - 1].Curly? then 0 else DepthOf(open[..|open| - 1]) + 1
  }

  /** What the `{` have saved. */
  function SavedOf(open: seq<Bracket>): seq<nat> {
    if open == [] then [] else
    var outer := open[..|open| - 1];
    SavedOf(outer) + if open[|open| - 1].Curly? then [DepthOf(outer)] else []
  }

  lemma OpenOneMore(open: seq<Bracket>, b: Bracket)
    ensures DepthOf(open + [b]) == if b.Curly? then 0 else DepthOf(open) + 1
    ensures SavedOf(open + [b]) == SavedOf(open) + if b.Curly? then [DepthOf(open)] else []
  {
    assert (open + [b])[..|open|] == open;
  }

  ghost predicate Describes(st: State, open: seq<Bracket>) { st.depth == DepthOf(open) && st.saved == SavedOf(open) }

  lemma OpeningKeeps(st: State, open: seq<Bracket>, t: Token)
    requires Describes(st, open) && MarkOf(t).Open?
    ensures Describes(Next(st, t), open + [MarkOf(t).b])
  {
    MarksAreTests(t);
    OpenOneMore(open, MarkOf(t).b);
    assert st.saved + [] == st.saved;
  }

  lemma ClosingKeeps(st: State, open: seq<Bracket>, t: Token)
    requires Describes(st, open) && MarkOf(t).Close? && OpenNext(open, t).Some?
    ensures Describes(Next(st, t), OpenNext(open, t).value)
  {
    MarksAreTests(t);
    var outer := open[..|open| - 1];
    assert SavedOf(outer) + [] == SavedOf(outer);
    assert open[|open| - 1].Curly? ==> st.saved == SavedOf(outer) + [DepthOf(outer)];
  }

  lemma OthersKeep(st: State, t: Token)
    requires MarkOf(t).NoMark?
    ensures Next(st, t).depth == st.depth && Next(st, t).saved == st.saved
  {
    MarksAreTests(t);
  }

  /** The counter and the stack of the loop describe the open brackets. */
  lemma {:induction false} StateIsOpenBrackets(ts: seq<Token>)
    requires OpenBrackets(ts).Some?
    ensures Describes(After(ts), OpenBrackets(ts).value)
    decreases |ts|
  {
    hide Next, MarkOf;
    if ts != [] {
      var before, t := ts[..|ts| - 1], ts[|ts| - 1];
      StateIsOpenBrackets(before);
      var st, open := After(before), OpenBrackets(before).value;
      if MarkOf(t).Open? {
        OpeningKeeps(st, open, t);
      } else if MarkOf(t).Close? {
        ClosingKeeps(st, open, t);
      } else {
        OthersKeep(st, t);
      }
    }
  }

  /** While brackets nest well, a newline is dropped exactly when the innermost open bracket is
      a parenthesis or a square bracket. */
  lemma DroppedExactlyInBrackets(before: seq<Token>, t: Token)
    requires OpenBrackets(before).Some? && t.kind.Newline?
    ensures var open := OpenBrackets(before).value;
            (open != [] && !open[|open| - 1].Curly?) <==> Suppressed(before + [t]) == Suppressed(before)
  {
    StateIsOpenBrackets(before);
    AfterOneMore(before, t);
    assert |Suppressed(before) + [t]| == |Suppressed(before)| + 1;
  }

  // ---------------------------------------------------------------- any stream

  /** Where the innermost open `{` stands, |open| if there is none. */
  function BlockAt(open: seq<Bracket>): (i: nat)
    ensures i <= |open| && (i < |open| ==> open[i].Curly? && forall j :: i < j < |open| ==> !open[j].Curly?)
    ensures i == |open| <==> forall j :: 0 <= j < |open| ==> !open[j].Curly?
    decreases |open|
  {
    if open == [] then 0
    else if open[|open| - 1].Curly? then |open| - 1
    else var i := BlockAt(open[..|open| - 1]); if i == |open| - 1 then |open| else i
  }

  /** The brackets still open behind t, whatever its kind: a `)` or `]` closes the innermost bracket inside
      the block, a `}` the block with all that is open in it, and neither closes what is not there. */
  function PendingNext(open: seq<Bracket>, t: Token): seq<Bracket> {
    match MarkOf(t)
    case Open(b) => open + [b]
    case Close(Curly) => if BlockAt(open) == |open| then open else open[..BlockAt(open)]
    case Close(_) => if open == [] || open[|open| - 1].Curly? then open else open[..|open| - 1]
    case NoMark => open
  }

  function Pending(ts: seq<Token>): seq<Bracket>
    decreases |ts|
  {
    if ts == [] then [] else PendingNext(Pending(ts[..|ts| - 1]), ts[|ts| - 1])
  }

  /** The innermost block saved the brackets open around it. */
  lemma {:induction false} BlockSaved(open: seq<Bracket>)
    ensures BlockAt(open) == |open| ==> SavedOf(open) == []
    ensures BlockAt(open) < |open| ==>
              SavedOf(open) == SavedOf(open[..BlockAt(open)]) + [DepthOf(open[..BlockAt(open)])]
    decreases |open|
  {
    if open != [] && !open[|open| - 1].Curly? {
      var outer := open[..|open| - 1];
      BlockSaved(outer);
      assert SavedOf(open) == SavedOf(outer);
      if BlockAt(outer) < |outer| { assert outer[..BlockAt(outer)] == open[..BlockAt(open)]; }
    }
  }

  lemma PendingKeeps(st: State, open: seq<Bracket>, t: Token)
    requires Describes(st, open)
    ensures Describes(Next(st, t), PendingNext(open, t))
  {
    hide Describes;
    if MarkOf(t).Open? {
      OpeningKeeps(st, open, t);
    } else if MarkOf(t) == Close(Curly) {
      BlockClosingKeeps(st, open, t);
    } else if MarkOf(t).Close? {
      BracketClosingKeeps(st, open, t);
    } else {
      OthersKeepAll(st, open, t);
    }
  }

  lemma BlockClosingKeeps(st: State, open: seq<Bracket>, t: Token)
    requires Describes(st, open) && MarkOf(t) == Close(Curly)
    ensures Describes(Next(st, t), PendingNext(open, t))
  {
    MarksAreTests(t);
    BlockSaved(open);
  }

  lemma BracketClosingKeeps(st: State, open: seq<Bracket>, t: Token)
    requires Describes(st, open) && MarkOf(t).Close? && !MarkOf(t).b.Curly?
    ensures Describes(Next(st, t), PendingNext(open, t))
  {
    MarksAreTests(t);
    if open != [] && !open[|open| - 1].Curly? { assert SavedOf(open) == SavedOf(open[..|open| - 1]); }
  }

  lemma OthersKeepAll(st: State, open: seq<Bracket>, t: Token)
    requires Describes(st, open) && MarkOf(t).NoMark?
    ensures Describes(Next(st, t), PendingNext(open, t))
  {
    OthersKeep(st, t);
  }

  lemma {:induction false} StateIsPending(ts: seq<Token>)
    ensures Describes(After(ts), Pending(ts))
    decreases |ts|
  {
    hide Next, PendingNext;
    if ts != [] {
      StateIsPending(ts[..|ts| - 1]);
      PendingKeeps(After(ts[..|ts| - 1]), Pending(ts[..|ts| - 1]), ts[|ts| - 1]);
    }
  }

  /** In any stream a newline is dropped exactly when the innermost bracket still open is a
      parenthesis or a square bracket. */
  lemma DroppedExactly(before: seq<Token>, t: Token)
    requires t.kind.Newline?
    ensures var open := Pending(before);
            Suppressed(before + [t]) ==
            if open != [] && !open[|open| - 1].Curly? then Suppressed(before) else Suppressed(before) + [t]
  {
    hide Next;
    StateIsPending(before);
    AfterOneMore(before, t);
    NextKeeps(After(before), t);
  }

  /** What is kept stays kept, whatever follows. */
  lemma {:induction false} SuppressedGrows(ts: seq<Token>, more: seq<Token>)
    ensures Suppressed(ts) <= Suppressed(ts + more)
    decreases |more|
  {
    if more == [] {
      assert ts + more == ts;
    } else {
      var n := |more| - 1;
      assert ts + more == (ts + more[..n]) + [more[n]];
      SuppressedGrows(ts, more[..n]);
      AfterOneMore(ts + more[..n], more[n]);
    }
  }
}
