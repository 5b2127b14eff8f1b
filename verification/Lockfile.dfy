/** The lockfile (writeLock and readLock, cmd/aril/lockfile.go; stripComment and tomlString,
    cmd/aril/manifest.go). */
module Lockfile {
  import opened Wrappers
  import opened Strings

  datatype Entry = Entry(name: string, source: string, version: string, resolved: string, hash: string)
  datatype ReadError = NoEquals | OutsideModule | NotAString | UnknownKey

  // ---------------------------------------------------------------- lines

  datatype Key = NameKey | SourceKey | VersionKey | ResolvedKey | HashKey

  function KeyName(k: Key): string {
    match k
    case NameKey => "name"
    case SourceKey => "source"
    case VersionKey => "version"
    case ResolvedKey => "resolved"
    case HashKey => "hash"
  }

  function FieldOf(e: Entry, k: Key): string {
    match k
    case NameKey => e.name
    case SourceKey => e.source
    case VersionKey => e.version
    case ResolvedKey => e.resolved
    case HashKey => e.hash
  }

  function WithField(e: Entry, k: Key, v: string): Entry {
    match k
    case NameKey => e.(name := v)
    case SourceKey => e.(source := v)
    case VersionKey => e.(version := v)
    case ResolvedKey => e.(resolved := v)
    case HashKey => e.(hash := v)
  }

  const KEYS: seq<Key> := [NameKey, SourceKey, VersionKey, ResolvedKey, HashKey]
  const HEADER: string := "[[module]]"

  /** A line, and what follows it. */
  function OnLine(line: string, rest: string): string { line + ['\n'] + rest }

  predicate IsComment(c: string) { c != "" && c[0] == '#' && '\n' !in c }

  // ---------------------------------------------------------------- printing

  function Quoted(v: string): string { ['"'] + v + ['"'] }

  /** `key = "value"` */
  function FieldLine(key: string, v: string): string { key + [' ', '=', ' '] + Quoted(v) }

  /** The fields of e from the k-th on, each on its line, and what follows them. */
  function Fields(e: Entry, k: nat, rest: string): string
    requires k <= |KEYS|
    decreases |KEYS| - k
  {
    if k == |KEYS| then rest else OnLine(FieldLine(KeyName(KEYS[k]), FieldOf(e, KEYS[k])), Fields(e, k + 1, rest))
  }

  /** An entry behind an empty line, and what follows it. */
  function EntryText(e: Entry, rest: string): string { OnLine("", OnLine(HEADER, Fields(e, 0, rest))) }

  function EntriesText(es: seq<Entry>): string { if es == [] then "" else EntryText(es[0], EntriesText(es[1..])) }

  const TITLE: string := "# aril.lock \U{2014}" + " generated by `aril get`;" + " do not edit by hand."
  const PURPOSE: string := "# Pins every dependency" + " (direct + transitive)" + " to an exact commit" + " + content hash."

  lemma HeadersAreComments()
    ensures IsComment(TITLE) && IsComment(PURPOSE)
  {
  }

  /** The file, behind its two comments. */
  function Render(c: string, d: string, es: seq<Entry>): string { OnLine(c, OnLine(d, EntriesText(es))) }

  /** A printed field, and what follows it. */
  function PrintedField(key: string, v: string, rest: string): string { key + " = \"" + v + "\"\n" + rest }

  /** The text of an entry. */
  function Printed(e: Entry): string {
    "\n[[module]]\n"
    + PrintedField("name", e.name,
        PrintedField("source", e.source,
          PrintedField("version", e.version, PrintedField("resolved", e.resolved, PrintedField("hash", e.hash, "")))))
  }

  function PrintedAll(es: seq<Entry>): string { if es == [] then "" else Printed(es[0]) + PrintedAll(es[1..]) }

  lemma FieldIsPrinted(key: string, v: string, rest: string)
    ensures OnLine(FieldLine(key, v), rest) == PrintedField(key, v, rest)
  {
  }

  lemma FieldsArePrinted(e: Entry, k: nat)
    requires k < |KEYS|
    ensures Fields(e, k, "") == PrintedField(KeyName(KEYS[k]), FieldOf(e, KEYS[k]), Fields(e, k + 1, ""))
  {
    hide OnLine, FieldLine, PrintedField;
    FieldIsPrinted(KeyName(KEYS[k]), FieldOf(e, KEYS[k]), Fields(e, k + 1, ""));
  }

  lemma EntryIsPrinted(e: Entry)
    ensures EntryText(e, "") == Printed(e)
  {
    hide OnLine, FieldLine, PrintedField;
    FieldsArePrinted(e, 0);
    FieldsArePrinted(e, 1);
    FieldsArePrinted(e, 2);
    FieldsArePrinted(e, 3);
    FieldsArePrinted(e, 4);
    HeaderIsPrinted(Fields(e, 0, ""));
  }

  lemma HeaderIsPrinted(rest: string)
    ensures OnLine("", OnLine(HEADER, rest)) == "\n[[module]]\n" + rest
  {
  }

  lemma {:induction false} EntriesArePrinted(es: seq<Entry>)
    ensures EntriesText(es) == PrintedAll(es)
    decreases |es|
  {
    hide EntryText, Printed;
    if es != [] {
      EntriesArePrinted(es[1..]);
      EntryThen(es[0], EntriesText(es[1..]));
      EntryIsPrinted(es[0]);
    }
  }

  predicate SortedByName(es: seq<Entry>) { forall i, j :: 0 <= i < j < |es| ==> !StringLess(es[j].name, es[i].name) }

  lemma Associative(a: string, b: string, c: string)
    ensures a + (b + c) == (a + b) + c
  {
  }

  lemma OnLineThen(line: string, a: string, b: string)
    ensures OnLine(line, a + b) == OnLine(line, a) + b
  {
    Associative(line + ['\n'], a, b);
  }

  lemma {:induction false} FieldsThen(e: Entry, k: nat, rest: string)
    requires k <= |KEYS|
    ensures Fields(e, k, rest) == Fields(e, k, "") + rest
    decreases |KEYS| - k
  {
    if k < |KEYS| {
      FieldsThen(e, k + 1, rest);
      OnLineThen(FieldLine(KeyName(KEYS[k]), FieldOf(e, KEYS[k])), Fields(e, k + 1, ""), rest);
    }
  }

  lemma EntryThen(e: Entry, rest: string)
    ensures EntryText(e, rest) == EntryText(e, "") + rest
  {
    FieldsThen(e, 0, rest);
    OnLineThen(HEADER, Fields(e, 0, ""), rest);
    OnLineThen("", OnLine(HEADER, Fields(e, 0, "")), rest);
  }

  /** writeLock, up to the file: it prints two comments, and the entries sorted by name. */
  method WriteLock(entries: seq<Entry>) returns (text: string)
    ensures exists sorted :: && text == Render(TITLE, PURPOSE, sorted) == TITLE + "\n" + PURPOSE + "\n" + PrintedAll(sorted)
                             && SortedByName(sorted) && multiset(sorted) == multiset(entries)
  {
    hide EntriesText, PrintedAll, SortedByName, TITLE, PURPOSE;
    var es := SortEntries(entries);
    var b := PrintEntries(es);
    text := OnLine(TITLE, OnLine(PURPOSE, b));
    EntriesArePrinted(es);
    assert text == Render(TITLE, PURPOSE, es);
    assert text == TITLE + "\n" + PURPOSE + "\n" + PrintedAll(es);
  }

  method PrintEntries(es: seq<Entry>) returns (b: string)
    ensures b == EntriesText(es)
  {
    b := "";
    for i := 0 to |es|
      invariant b + EntriesText(es[i..]) == EntriesText(es)
    {
      assert es[i..][0] == es[i] && es[i..][1..] == es[i + 1..];
      EntryThen(es[i], EntriesText(es[i + 1..]));
      Associative(b, EntryText(es[i], ""), EntriesText(es[i + 1..]));
      b := b + EntryText(es[i], "");
    }
    assert es[|es|..] == [] && b + "" == b;
  }

  method SortEntries(entries: seq<Entry>) returns (es: seq<Entry>)
    ensures SortedByName(es) && multiset(es) == multiset(entries)
  {
    es := [];
    for i := 0 to |entries|
      invariant SortedByName(es) && multiset(es) == multiset(entries[..i])
    {
      var e, j := entries[i], 0;
      while j < |es| && !StringLess(e.name, es[j].name)
        invariant j <= |es| && forall k :: 0 <= k < j ==> !StringLess(e.name, es[k].name)
      {
        j := j + 1;
      }
      InsertedIsSorted(es, e, j);
      assert es == es[..j] + es[j..];
      assert entries[..i + 1] == entries[..i] + [e];
      es := es[..j] + [e] + es[j..];
    }
    assert entries[..|entries|] == entries;
  }

  lemma InsertedIsSorted(es: seq<Entry>, e: Entry, j: nat)
    requires SortedByName(es) && j <= |es| && (forall k :: 0 <= k < j ==> !StringLess(e.name, es[k].name))
    requires j < |es| ==> StringLess(e.name, es[j].name)
    ensures SortedByName(es[..j] + [e] + es[j..])
  {
    forall k | j <= k < |es| ensures !StringLess(es[k].name, e.name) {
      StringLessTotal(e.name, es[k].name);
      StringLessTotal(es[j].name, es[k].name);
      if k > j && StringLess(es[k].name, e.name) { StringLessTransitive(es[k].name, e.name, es[j].name); }
    }
  }

  // ---------------------------------------------------------------- reading

  function StripComment(line: string): string { line[..IndexOf(line, '#')] }

  function TomlString(v: string): Option<string> {
    if |v| < 2 || v[0] != '"' || v[|v| - 1] != '"' then None else Some(v[1..|v| - 1])
  }

  function KeyOf(key: string): Option<Key> {
    if key == "name" then Some(NameKey)
    else if key == "source" then Some(SourceKey)
    else if key == "version" then Some(VersionKey)
    else if key == "resolved" then Some(ResolvedKey)
    else if key == "hash" then Some(HashKey)
    else None
  }

  /** What a line says, its comment and the space around it gone; None: no `=`. */
  datatype Line = Blank | Header | Assignment(key: string, v: string) | Malformed

  function LineOf(raw: string): Line {
    var line := TrimSpace(StripComment(raw));
    if line == "" then Blank
    else if line == HEADER then Header
    else if '=' !in line then Malformed
    else Assignment(TrimSpace(line[..IndexOf(line, '=')]), TrimSpace(line[IndexOf(line, '=') + 1..]))
  }

  const NO_ENTRY: Entry := Entry("", "", "", "", "")

  /** One line of the file, with the entries read so far; the last one is being filled. */
  function ReadLine(es: seq<Entry>, line: Line): Result<seq<Entry>, ReadError> {
    match line
    case Blank => Ok(es)
    case Header => Ok(es + [NO_ENTRY])
    case Malformed => Err(NoEquals)
    case Assignment(key, v) =>
      if es == [] then Err(OutsideModule)
      else if TomlString(v).None? then Err(NotAString)
      else if KeyOf(key).None? then Err(UnknownKey)
      else Ok(es[..|es| - 1] + [WithField(es[|es| - 1], KeyOf(key).value, TomlString(v).value)])
  }

  function ReadLines(es: seq<Entry>, lines: seq<string>): Result<seq<Entry>, ReadError>
    decreases |lines|
  {
    if lines == [] then Ok(es) else
    match ReadLine(es, LineOf(lines[0])) case Ok(es') => ReadLines(es', lines[1..]) case Err(e) => Err(e)
  }

  /** readLock, of a file that is there. */
  method ReadLock(text: string) returns (r: Result<seq<Entry>, ReadError>)
    ensures r == ReadLines([], Split(text, '\n'))
  {
    var lines := Split(text, '\n');
    var entries: seq<Entry> := [];
    for i := 0 to |lines|
      invariant ReadLines(entries, lines[i..]) == ReadLines([], lines)
    {
      assert lines[i..][1..] == lines[i + 1..];
      match LineOf(lines[i])
      case Blank =>
      case Header => entries := entries + [NO_ENTRY];
      case Malformed => return Err(NoEquals);
      case Assignment(key, v) =>
        if |entries| == 0 { return Err(OutsideModule); }
        var s := TomlString(v);
        if s.None? { return Err(NotAString); }
        var k := KeyOf(key);
        if k.None? { return Err(UnknownKey); }
        entries := entries[..|entries| - 1] + [WithField(entries[|entries| - 1], k.value, s.value)];
    }
    return Ok(entries);
  }

  // ---------------------------------------------------------------- what a line says

  /** The line has this body, with space around it, and perhaps a comment. */
  ghost predicate Says(raw: string, body: string) {
    exists lead, trail, comment :: SaysWith(raw, body, lead, trail, comment)
  }

  predicate SaysWith(raw: string, body: string, lead: string, trail: string, comment: string) {
    && raw == lead + body + trail + comment && AllSpace(lead) && AllSpace(trail)
    && '#' !in body && (body == "" || Solid(body)) && (comment == "" || comment[0] == '#')
  }

  lemma HashIsNoSpace()
    ensures !IsSpace('#') && !IsSpace('=')
  {
  }

  lemma StripsComment(text: string, comment: string)
    requires '#' !in text && (comment == "" || comment[0] == '#')
    ensures StripComment(text + comment) == text
  {
    if comment == "" {
      assert text + comment == text && text[..|text|] == text;
    } else {
      assert text + comment == text + ['#'] + comment[1..];
      IndexOfAt(text, '#', comment[1..]);
      assert (text + comment)[..|text|] == text;
    }
  }

  lemma SaysExactly(raw: string, body: string)
    ensures Says(raw, body) <==> TrimSpace(StripComment(raw)) == body
  {
    hide IsSpace, TrimSpace, IndexOf;
    HashIsNoSpace();
    forall lead, trail, comment | SaysWith(raw, body, lead, trail, comment) ensures TrimSpace(StripComment(raw)) == body {
      StripsComment(lead + body + trail, comment);
      if body == "" {
        assert lead + body + trail == lead + trail;
        TrimsBlank(lead + trail);
      } else {
        TrimsPadding(lead, body, trail);
      }
    }
    if TrimSpace(StripComment(raw)) == body {
      var text, comment := StripComment(raw), raw[IndexOf(raw, '#')..];
      var lead, trail := Padding(text);
      assert raw == text + comment;
      assert forall c :: c in body ==> c in text;
      assert SaysWith(raw, body, lead, trail, comment);
    }
  }

  /** The body of an assignment: a key, an equals sign, a value, with space between them. */
  predicate Assigns(body: string, key: string, sp: string, sp': string, v: string) {
    && body == key + sp + "=" + sp' + v && AllSpace(sp) && AllSpace(sp')
    && '=' !in key && (key == "" || Solid(key)) && (v == "" || Solid(v))
  }

  lemma TrimsEither(s: string, lead: string, trail: string)
    requires AllSpace(lead) && AllSpace(trail) && (s == "" || Solid(s))
    ensures TrimSpace(lead + s + trail) == s
  {
    if s == "" {
      assert lead + s + trail == lead + trail;
      TrimsBlank(lead + trail);
    } else {
      TrimsPadding(lead, s, trail);
    }
  }

  lemma AssignmentIs(raw: string, body: string, key: string, sp: string, sp': string, v: string)
    requires Says(raw, body) && Assigns(body, key, sp, sp', v)
    ensures LineOf(raw) == Assignment(key, v)
  {
    hide IsSpace, TrimSpace, IndexOf, StripComment, HEADER, Says;
    HashIsNoSpace();
    SaysExactly(raw, body);
    var left, right := key + sp, sp' + v;
    assert body == left + ['='] + right;
    IndexOfAt(left, '=', right);
    assert body[..|left|] == left && body[|left| + 1..] == right && body[|left|] == '=';
    assert left == "" + key + sp && right == sp' + v + "";
    TrimsEither(key, "", sp);
    TrimsEither(v, sp', "");
    HeaderHasNoEquals();
  }

  lemma HeaderHasNoEquals()
    ensures '=' !in HEADER && HEADER == "[[module]]"
  {
  }

  lemma FrontSide(body: string, front: string, rest: string) returns (key: string, sp: string)
    requires Solid(body) && body == front + rest
    ensures front == key + sp && AllSpace(sp) && (key == "" || Solid(key))
  {
    hide IsSpace, TrimSpace;
    var lead, trail := Padding(front);
    key, sp := TrimSpace(front), trail;
    assert body == lead + (key + trail + rest);
    StartsInSpace(lead, key + trail + rest);
  }

  lemma BackSide(body: string, rest: string, back: string) returns (sp: string, v: string)
    requires Solid(body) && body == rest + back
    ensures back == sp + v && AllSpace(sp) && (v == "" || Solid(v))
  {
    hide IsSpace, TrimSpace;
    var lead, trail := Padding(back);
    sp, v := lead, TrimSpace(back);
    assert body == (rest + lead + v) + trail;
    EndsInSpace(rest + lead + v, trail);
  }

  lemma Halves(body: string, i: nat, key: string, sp: string, sp': string, v: string)
    requires i < |body| && body[i] == '=' && '=' !in body[..i] && body[..i] == key + sp && body[i + 1..] == sp' + v
    ensures body == key + sp + "=" + sp' + v && '=' !in key
  {
    assert body == body[..i] + ['='] + body[i + 1..];
    assert forall c :: c in key ==> c in body[..i];
  }

  /** Every body with an equals sign is an assignment. */
  lemma AssignsSomething(body: string) returns (key: string, sp: string, sp': string, v: string)
    requires Solid(body) && '=' in body
    ensures Assigns(body, key, sp, sp', v)
  {
    hide AllSpace, Solid, IndexOf;
    var i := IndexOf(body, '=');
    Apart(body, i);
    key, sp := FrontSide(body, body[..i], body[i..]);
    sp', v := BackSide(body, body[..i + 1], body[i + 1..]);
    Halves(body, i, key, sp, sp', v);
  }

  lemma Apart(body: string, i: nat)
    requires i < |body|
    ensures body == body[..i] + body[i..] && body == body[..i + 1] + body[i + 1..]
  {
  }

  predicate IsQuoted(v: string) { |v| >= 2 && v[0] == '"' && v[|v| - 1] == '"' }

  predicate IsKey(key: string) { key == "name" || key == "source" || key == "version" || key == "resolved" || key == "hash" }

  /** A line without a body changes nothing, a header starts an empty entry, and any other line needs an
      equals sign. */
  lemma LineReads(es: seq<Entry>, raw: string, body: string)
    requires Says(raw, body)
    ensures body == "" ==> ReadLine(es, LineOf(raw)) == Ok(es)
    ensures body == "[[module]]" ==> ReadLine(es, LineOf(raw)) == Ok(es + [Entry("", "", "", "", "")])
    ensures body != "" && body != "[[module]]" && '=' !in body ==> ReadLine(es, LineOf(raw)) == Err(NoEquals)
  {
    hide Says, TrimSpace, StripComment;
    SaysExactly(raw, body);
  }

  /** An assignment needs an entry, a quoted value and a known key, in this order; it sets that field of
      the last entry to the text between the quotes. */
  lemma AssignmentReads(es: seq<Entry>, raw: string, body: string, key: string, sp: string, sp': string, v: string)
    requires Says(raw, body) && Assigns(body, key, sp, sp', v)
    ensures var r := ReadLine(es, LineOf(raw));
            if es == [] then r == Err(OutsideModule)
            else if !IsQuoted(v) then r == Err(NotAString)
            else if !IsKey(key) then r == Err(UnknownKey)
            else
              var n, inside := |es| - 1, v[1..|v| - 1];
              && (key == "name" ==> r == Ok(es[..n] + [es[n].(name := inside)]))
              && (key == "source" ==> r == Ok(es[..n] + [es[n].(source := inside)]))
              && (key == "version" ==> r == Ok(es[..n] + [es[n].(version := inside)]))
              && (key == "resolved" ==> r == Ok(es[..n] + [es[n].(resolved := inside)]))
              && (key == "hash" ==> r == Ok(es[..n] + [es[n].(hash := inside)]))
  {
    hide Says, Assigns, LineOf;
    AssignmentIs(raw, body, key, sp, sp', v);
    KeyIsKnown(NameKey);
    KeyIsKnown(SourceKey);
    KeyIsKnown(VersionKey);
    KeyIsKnown(ResolvedKey);
    KeyIsKnown(HashKey);
  }

  ghost predicate IsFieldLine(raw: string) {
    exists body, key, sp, sp', v :: Says(raw, body) && Assigns(body, key, sp, sp', v) && IsQuoted(v) && IsKey(key)
  }

  /** Nothing but space and a comment, a header, or a field once an entry has been started. */
  ghost predicate IsLineAt(started: bool, lines: seq<string>, i: nat)
    requires i < |lines|
  {
    || Says(lines[i], "") || Says(lines[i], "[[module]]")
    || (IsFieldLine(lines[i]) && (started || exists j :: 0 <= j < i && Says(lines[j], "[[module]]")))
  }

  lemma OneLine(es: seq<Entry>, raw: string)
    ensures var r := ReadLine(es, LineOf(raw));
            && (r.Ok? <==> Says(raw, "") || Says(raw, "[[module]]") || (IsFieldLine(raw) && es != []))
            && (r.Ok? ==> (r.value != [] <==> es != [] || Says(raw, "[[module]]")))
  {
    hide LineOf, Assigns, SaysWith, ReadLine;
    var body := TrimSpace(StripComment(raw));
    SaysExactly(raw, body);
    SaysExactly(raw, "");
    SaysExactly(raw, "[[module]]");
    LineReads(es, raw, body);
    if body != "" && body != "[[module]]" && '=' in body {
      SolidBody(raw, body);
      var key, sp, sp', v := AssignsSomething(body);
      AssignmentReads(es, raw, body, key, sp, sp', v);
    }
    forall body', key, sp, sp', v | Says(raw, body') && Assigns(body', key, sp, sp', v) && IsQuoted(v) && IsKey(key)
      ensures body' == body && (es != [] ==> ReadLine(es, LineOf(raw)).Ok?) && '=' in body
    {
      SaysExactly(raw, body');
      AssignmentReads(es, raw, body', key, sp, sp', v);
      AssignmentHasEquals(body', key, sp, sp', v);
    }
  }

  lemma AssignmentHasEquals(body: string, key: string, sp: string, sp': string, v: string)
    requires Assigns(body, key, sp, sp', v)
    ensures '=' in body
  {
    assert body[|key + sp|] == '=';
  }

  lemma SolidBody(raw: string, body: string)
    requires Says(raw, body) && body != ""
    ensures Solid(body)
  {
    var lead, trail, comment :| SaysWith(raw, body, lead, trail, comment);
  }

  lemma LineBehind(started: bool, started': bool, lines: seq<string>, i: nat)
    requires 1 <= i < |lines| && (started' <==> started || Says(lines[0], "[[module]]"))
    ensures IsLineAt(started, lines, i) <==> IsLineAt(started', lines[1..], i - 1)
  {
    hide Says, IsFieldLine;
    var rest := lines[1..];
    assert rest[i - 1] == lines[i];
    if j :| 0 <= j < i && Says(lines[j], "[[module]]") { assert j > 0 ==> rest[j - 1] == lines[j]; }
    if j :| 0 <= j < i - 1 && Says(rest[j], "[[module]]") { assert lines[j + 1] == rest[j]; }
  }

  ghost predicate AllLines(started: bool, lines: seq<string>) {
    forall i :: 0 <= i < |lines| ==> IsLineAt(started, lines, i)
  }

  lemma FirstLine(started: bool, started': bool, lines: seq<string>)
    requires lines != [] && (started' <==> started || Says(lines[0], "[[module]]"))
    ensures AllLines(started, lines) <==> IsLineAt(started, lines, 0) && AllLines(started', lines[1..])
  {
    hide IsLineAt;
    forall i | 1 <= i < |lines| ensures IsLineAt(started, lines, i) <==> IsLineAt(started', lines[1..], i - 1) {
      LineBehind(started, started', lines, i);
    }
    if AllLines(started, lines) {
      forall i | 0 <= i < |lines[1..]| ensures IsLineAt(started', lines[1..], i) { LineBehind(started, started', lines, i + 1); }
    }
  }

  /** A file is read exactly when every line of it is one of these. */
  lemma {:induction false} FileReadsExactly(es: seq<Entry>, lines: seq<string>)
    ensures ReadLines(es, lines).Ok? <==> AllLines(es != [], lines)
    decreases |lines|
  {
    hide Says, LineOf, ReadLine, IsFieldLine;
    if lines != [] {
      OneLine(es, lines[0]);
      var r := ReadLine(es, LineOf(lines[0]));
      FirstLine(es != [], es != [] || Says(lines[0], "[[module]]"), lines);
      if r.Ok? { FileReadsExactly(r.value, lines[1..]); }
    }
  }

  // ---------------------------------------------------------------- what is read is clean

  /** A value the line format can hold. */
  predicate Clean(v: string) { '\n' !in v && '#' !in v }
  predicate CleanEntry(e: Entry) { Clean(e.name) && Clean(e.source) && Clean(e.version) && Clean(e.resolved) && Clean(e.hash) }
  predicate CleanEntries(es: seq<Entry>) { forall e :: e in es ==> CleanEntry(e) }

  lemma {:induction false} TrimLeftKeeps(s: string, c: char)
    requires c !in s
    ensures c !in TrimLeft(s)
    decreases |s|
  {
    if s != "" && IsSpace(s[0]) { TrimLeftKeeps(s[1..], c); }
  }

  lemma {:induction false} TrimRightKeeps(s: string, c: char)
    requires c !in s
    ensures c !in TrimRight(s)
    decreases |s|
  {
    if s != "" && IsSpace(s[|s| - 1]) { TrimRightKeeps(s[..|s| - 1], c); }
  }

  lemma TrimKeepsClean(s: string)
    requires Clean(s)
    ensures Clean(TrimSpace(s))
  {
    TrimLeftKeeps(s, '\n');
    TrimLeftKeeps(s, '#');
    TrimRightKeeps(TrimLeft(s), '\n');
    TrimRightKeeps(TrimLeft(s), '#');
  }

  lemma LineIsClean(raw: string)
    requires '\n' !in raw && LineOf(raw).Assignment?
    ensures Clean(LineOf(raw).v)
  {
    var line := TrimSpace(StripComment(raw));
    TrimKeepsClean(StripComment(raw));
    TrimKeepsClean(line[IndexOf(line, '=') + 1..]);
  }

  lemma ReadLineKeepsClean(es: seq<Entry>, line: Line)
    requires CleanEntries(es) && (line.Assignment? ==> Clean(line.v)) && ReadLine(es, line).Ok?
    ensures CleanEntries(ReadLine(es, line).value)
  {
    if line.Assignment? { assert es[|es| - 1] in es; }
  }

  /** Whatever is read successfully holds no newline and no `#`. */
  lemma {:induction false} ReadLinesKeepClean(es: seq<Entry>, lines: seq<string>)
    requires CleanEntries(es) && (forall l :: l in lines ==> '\n' !in l) && ReadLines(es, lines).Ok?
    ensures CleanEntries(ReadLines(es, lines).value)
    decreases |lines|
  {
    if lines != [] {
      assert lines[0] in lines;
      if LineOf(lines[0]).Assignment? { LineIsClean(lines[0]); }
      ReadLineKeepsClean(es, LineOf(lines[0]));
      ReadLinesKeepClean(ReadLine(es, LineOf(lines[0])).value, lines[1..]);
    }
  }

  // ---------------------------------------------------------------- what is printed is read back

  lemma TrimsAround(s: string)
    requires Solid(s)
    ensures TrimSpace(s) == s && TrimSpace(s + [' ']) == s && TrimSpace([' '] + s) == s
  {
    TrimSpaceOfTrimmed(s);
    assert (s + [' '])[..|s|] == s && ([' '] + s)[1..] == s;
    assert TrimLeft(s + [' ']) == s + [' '] && TrimLeft([' '] + s) == TrimLeft(s) == s;
    assert TrimRight(s + [' ']) == TrimRight(s) == s;
  }

  predicate PlainKey(key: string) { Solid(key) && '=' !in key && Clean(key) && key[0] != '[' }

  lemma KeyFacts(k: Key)
    ensures PlainKey(KeyName(k)) && KeyOf(KeyName(k)) == Some(k)
  {
    KeyIsPlain(k);
    KeyIsKnown(k);
  }

  lemma KeyIsPlain(k: Key)
    ensures PlainKey(KeyName(k))
  {
    match k
    case NameKey => assert PlainKey("name");
    case SourceKey => assert PlainKey("source");
    case VersionKey => assert PlainKey("version");
    case ResolvedKey => assert PlainKey("resolved");
    case HashKey => assert PlainKey("hash");
  }

  lemma KeyIsKnown(k: Key)
    ensures KeyOf(KeyName(k)) == Some(k)
  {
    assert "name" != "source" && "name" != "version" && "name" != "resolved" && "name"[0] != "hash"[0];
  }

  /** A line of a clean field says what was printed. */
  lemma FieldLineReads(key: string, v: string)
    requires PlainKey(key) && Clean(v)
    ensures LineOf(FieldLine(key, v)) == Assignment(key, Quoted(v))
  {
    var line := FieldLine(key, v);
    assert '#' !in line && line[..|line|] == line;
    assert line == (key + [' ']) + ['='] + ([' '] + Quoted(v));
    IndexOfAt(key + [' '], '=', [' '] + Quoted(v));
    assert line[..|key| + 1] == key + [' '] && line[|key| + 2..] == [' '] + Quoted(v);
    assert line[0] == key[0] && line[|line| - 1] == '"' && line[|key| + 1] == '=';
    TrimsAround(line);
    TrimsAround(key);
    TrimsAround(Quoted(v));
    NotHeader(line);
  }

  lemma NotHeader(line: string)
    requires line != "" && line[0] != '['
    ensures line != HEADER
  {
  }

  lemma FieldReadsBack(es: seq<Entry>, k: Key, v: string)
    requires es != [] && Clean(v)
    ensures ReadLine(es, LineOf(FieldLine(KeyName(k), v))) == Ok(es[..|es| - 1] + [WithField(es[|es| - 1], k, v)])
  {
    KeyFacts(k);
    FieldLineReads(KeyName(k), v);
    assert Quoted(v)[1..|Quoted(v)| - 1] == v;
  }

  function ReadOn(r: Result<seq<Entry>, ReadError>, text: string): Result<seq<Entry>, ReadError> {
    if r.Ok? then ReadLines(r.value, Split(text, '\n')) else r
  }

  /** Reading the first line, then the rest. */
  lemma ReadsPast(es: seq<Entry>, line: string, rest: string)
    requires '\n' !in line
    ensures ReadLines(es, Split(OnLine(line, rest), '\n')) == ReadOn(ReadLine(es, LineOf(line)), rest)
  {
    var text := OnLine(line, rest);
    IndexOfAt(line, '\n', rest);
    assert text[..|line|] == line && text[|line| + 1..] == rest;
    assert Split(text, '\n') == [line] + Split(rest, '\n');
    assert Split(text, '\n')[1..] == Split(rest, '\n');
  }

  lemma FieldOfClean(e: Entry, k: Key)
    requires CleanEntry(e)
    ensures Clean(FieldOf(e, k)) && '\n' !in FieldLine(KeyName(k), FieldOf(e, k))
  {
    KeyIsPlain(k);
  }

  /** cur has the first k fields of e. */
  ghost predicate SameUpTo(cur: Entry, e: Entry, k: nat) {
    k <= |KEYS| && forall j :: 0 <= j < k ==> FieldOf(cur, KEYS[j]) == FieldOf(e, KEYS[j])
  }

  lemma AllFieldsSame(cur: Entry, e: Entry)
    requires SameUpTo(cur, e, |KEYS|)
    ensures cur == e
  {
    assert FieldOf(cur, KEYS[0]) == FieldOf(e, KEYS[0]) && FieldOf(cur, KEYS[1]) == FieldOf(e, KEYS[1])
           && FieldOf(cur, KEYS[2]) == FieldOf(e, KEYS[2]) && FieldOf(cur, KEYS[3]) == FieldOf(e, KEYS[3])
           && FieldOf(cur, KEYS[4]) == FieldOf(e, KEYS[4]);
  }

  lemma OneFieldMore(cur: Entry, e: Entry, k: nat)
    requires SameUpTo(cur, e, k) && k < |KEYS|
    ensures SameUpTo(WithField(cur, KEYS[k], FieldOf(e, KEYS[k])), e, k + 1)
  {
  }

  /** The fields from the k-th on complete the entry that is being filled. */
  lemma {:induction false} FieldsReadBack(done: seq<Entry>, cur: Entry, e: Entry, k: nat, rest: string)
    requires CleanEntry(e) && SameUpTo(cur, e, k)
    ensures ReadLines(done + [cur], Split(Fields(e, k, rest), '\n')) == ReadLines(done + [e], Split(rest, '\n'))
    decreases |KEYS| - k
  {
    hide Split, LineOf, ReadLine, ReadLines, FieldLine, OnLine, KeyName, FieldOf, WithField, CleanEntry;
    if k == |KEYS| {
      AllFieldsSame(cur, e);
    } else {
      FieldOfClean(e, KEYS[k]);
      ReadsPast(done + [cur], FieldLine(KeyName(KEYS[k]), FieldOf(e, KEYS[k])), Fields(e, k + 1, rest));
      FieldReadsBack(done + [cur], KEYS[k], FieldOf(e, KEYS[k]));
      assert (done + [cur])[..|done|] == done;
      OneFieldMore(cur, e, k);
      FieldsReadBack(done, WithField(cur, KEYS[k], FieldOf(e, KEYS[k])), e, k + 1, rest);
    }
  }

  lemma WholeLine(s: string)
    requires Solid(s) && '#' !in s
    ensures TrimSpace(StripComment(s)) == s
  {
    assert s[..|s|] == s;
    TrimsAround(s);
  }

  lemma HeaderIsPlain()
    ensures Solid(HEADER) && '#' !in HEADER && '\n' !in HEADER
  {
  }

  lemma HeaderReads()
    ensures LineOf(HEADER) == Header && '\n' !in HEADER
  {
    HeaderIsPlain();
    WholeLine(HEADER);
  }

  lemma BlankReads()
    ensures LineOf("") == Blank
  {
    assert StripComment("") == "";
  }

  lemma NothingReads(done: seq<Entry>)
    ensures ReadLines(done, Split("", '\n')) == Ok(done)
  {
    BlankReads();
    var last := [""];
    assert Split("", '\n') == last && last[0] == "" && last[1..] == [];
    assert ReadLines(done, []) == Ok(done);
  }

  lemma EntryReadsBack(done: seq<Entry>, e: Entry, rest: string)
    requires CleanEntry(e)
    ensures ReadLines(done, Split(EntryText(e, rest), '\n')) == ReadLines(done + [e], Split(rest, '\n'))
  {
    BlankReads();
    HeaderReads();
    ReadsPast(done, "", OnLine(HEADER, Fields(e, 0, rest)));
    ReadsPast(done, HEADER, Fields(e, 0, rest));
    FieldsReadBack(done, NO_ENTRY, e, 0, rest);
  }

  lemma FirstThenRest(done: seq<Entry>, es: seq<Entry>)
    requires CleanEntries(es)
    ensures if es == [] then done + es == done
            else done + [es[0]] + es[1..] == done + es && CleanEntry(es[0]) && CleanEntries(es[1..])
  {
  }

  lemma {:induction false} EntriesReadBack(done: seq<Entry>, es: seq<Entry>)
    requires CleanEntries(es)
    ensures ReadLines(done, Split(EntriesText(es), '\n')) == Ok(done + es)
    decreases |es|
  {
    if es == [] {
      FirstThenRest(done, es);
      NothingReads(done);
    } else {
      FirstThenRest(done, es);
      EntryReadsBack(done, es[0], EntriesText(es[1..]));
      EntriesReadBack(done + [es[0]], es[1..]);
    }
  }

  lemma CommentReads(c: string, rest: string)
    requires IsComment(c)
    ensures ReadLines([], Split(OnLine(c, rest), '\n')) == ReadLines([], Split(rest, '\n'))
  {
    assert StripComment(c) == "";
    ReadsPast([], c, rest);
  }

  /** Reading what was printed gives the same entries exactly when no field holds a newline or
      a `#`. */
  lemma RoundTripExactly(c: string, d: string, es: seq<Entry>)
    requires IsComment(c) && IsComment(d)
    ensures ReadLines([], Split(Render(c, d, es), '\n')) == Ok(es) <==> CleanEntries(es)
  {
    hide ReadLines, Split, EntriesText, OnLine, CleanEntry, IsComment;
    CommentReads(c, OnLine(d, EntriesText(es)));
    CommentReads(d, EntriesText(es));
    if CleanEntries(es) {
      EntriesReadBack([], es);
      assert [] + es == es;
    } else if ReadLines([], Split(Render(c, d, es), '\n')).Ok? {
      ReadLinesKeepClean([], Split(Render(c, d, es), '\n'));
    }
  }

  /** What writeLock prints is read back as the same entries, sorted by name, exactly when every
      field is clean. */
  lemma LockRoundTrip(entries: seq<Entry>, sorted: seq<Entry>)
    requires SortedByName(sorted) && multiset(sorted) == multiset(entries)
    ensures ReadLines([], Split(Render(TITLE, PURPOSE, sorted), '\n')) == Ok(sorted) <==> CleanEntries(entries)
  {
    hide Render, ReadLines, Split, IsComment;
    HeadersAreComments();
    RoundTripExactly(TITLE, PURPOSE, sorted);
    forall e ensures e in sorted <==> e in entries { assert e in multiset(sorted) <==> e in multiset(entries); }
  }
}
