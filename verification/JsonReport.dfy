/** What ffprobe's JSON writer prints for a report, and what a reader makes of it.

    A report is the list of chapters that main and probe_file print: each chapter holds
    sections, each section its integer and string entries and possibly a dictionary of
    tags.  ReportText is the text of the whole run; ReportIsJson says exactly when it is
    a JSON text and which value it then denotes. */
module JsonReport {
  import opened Options
  import opened ProbeReport
  import opened JsonGrammar

  /** print_packets_and_frames after these chapter headers: only a multi-entry chapter
      changes it, and every section reads it. */
  predicate TypedAfter(chapters: Report) {
    chapters != [] &&
    var last := chapters[|chapters| - 1].name;
    if IsMulti(last) then last == "packets_and_frames" else TypedAfter(chapters[..|chapters| - 1])
  }

  // ---------- The text ----------

  function EscapeChar(c: char): string {
    if c == '"' then "\\\""
    else if c == '\\' then "\\\\"
    else if c == 8 as char then "\\b"
    else if c == 12 as char then "\\f"
    else if c == '\n' then "\\n"
    else if c == '\r' then "\\r"
    else if c == '\t' then "\\t"
    else if c < ' ' then "\\u00" + [Digit(c as nat / 16), Digit(c as nat % 16)]
    else [c]
  }

  function Escape(s: string): string {
    if s == "" then "" else EscapeChar(s[0]) + Escape(s[1..])
  }

  function Quote(s: string): string {
    "\"" + Escape(s) + "\""
  }

  function Sep(compact: bool): string {
    if compact then ", " else ",\n"
  }

  function StartEnd(compact: bool): string {
    if compact then " " else "\n"
  }

  /** A name that is printed without escaping, as a key. */
  function Key(name: string): string {
    "\"" + name + "\": "
  }

  function Pad(compact: bool, level: nat): string {
    if compact then "" else Indent(level)
  }

  function EntryText(e: Entry): string {
    Quote(e.key) + ": " + if e.IntEntry? then IntText(e.number) else Quote(e.text)
  }

  function EntriesText(compact: bool, level: nat, es: seq<Entry>): string {
    if es == [] then ""
    else
      EntriesText(compact, level, es[..|es| - 1]) + (if |es| > 1 then Sep(compact) else "") +
      Pad(compact, level) + EntryText(es[|es| - 1])
  }

  function TagEntries(tags: seq<Tag>): seq<Entry> {
    seq(|tags|, i requires 0 <= i < |tags| => StrEntry(tags[i].key, tags[i].text, false))
  }

  function TagsText(compact: bool, level: nat, tags: Option<seq<Tag>>): string {
    if tags.None? then ""
    else
      Sep(compact) + Pad(compact, level) + Key("tags") + ("{" + StartEnd(compact)) +
      EntriesText(compact, level + 1, TagEntries(tags.value)) +
      StartEnd(compact) + Pad(compact, level) + "}"
  }

  function SectionHead(compact: bool, level: nat, multi: bool, typed: bool, name: string): string {
    var open := (if multi then Indent(level) else Indent(level) + Key(name)) + ("{" + StartEnd(compact));
    if typed then open + Pad(compact, level + 1) + Key("type") + ("\"" + name + "\"") + Sep(compact) else open
  }

  function SectionFoot(compact: bool, level: nat): string {
    StartEnd(compact) + Pad(compact, level) + "}"
  }

  function SectionText(compact: bool, level: nat, multi: bool, typed: bool, name: string,
                       es: seq<Entry>, tags: Option<seq<Tag>>): string {
    SectionHead(compact, level, multi, typed, name) + EntriesText(compact, level + 1, es) +
    TagsText(compact, level + 1, tags) + SectionFoot(compact, level)
  }

  function SectionsText(compact: bool, level: nat, typed: bool, shown: string -> bool,
                        chapter: string, ss: seq<Section>): string {
    if ss == [] then ""
    else
      var last := ss[|ss| - 1];
      SectionsText(compact, level, typed, shown, chapter, ss[..|ss| - 1]) + (if |ss| > 1 then ",\n" else "") +
      SectionText(compact, level, IsMulti(chapter), typed, last.name,
                  Printed(chapter == "format", shown, last.entries), last.tags)
  }

  function ChapterText(compact: bool, typed: bool, shown: string -> bool, ch: Chapter): string {
    if IsMulti(ch.name) then
      Indent(1) + Quote(ch.name) + ": [\n" + SectionsText(compact, 2, typed, shown, ch.name, ch.sections) +
      "\n" + Indent(1) + "]"
    else SectionsText(compact, 1, typed, shown, ch.name, ch.sections)
  }

  function BodyText(compact: bool, shown: string -> bool, r: Report): string {
    if r == [] then ""
    else
      BodyText(compact, shown, r[..|r| - 1]) + (if |r| > 1 then "," else "") + "\n" +
      ChapterText(compact, TypedAfter(r), shown, r[|r| - 1])
  }

  function ReportText(compact: bool, shown: string -> bool, r: Report): string {
    "{" + BodyText(compact, shown, r) + "\n}\n"
  }

  // ---------- The value it stands for ----------

  function EntryMember(e: Entry): Member {
    Member(e.key, if e.IntEntry? then JNumber(IntText(e.number)) else JString(e.text))
  }

  function EntryMembers(es: seq<Entry>): seq<Member> {
    seq(|es|, i requires 0 <= i < |es| => EntryMember(es[i]))
  }

  function SectionValue(typed: bool, name: string, es: seq<Entry>, tags: Option<seq<Tag>>): Json {
    JObject((if typed then [Member("type", JString(name))] else []) + EntryMembers(es) +
            (if tags.None? then [] else [Member("tags", JObject(EntryMembers(TagEntries(tags.value))))]))
  }

  function Value(typed: bool, shown: string -> bool, chapter: string, sec: Section): Json {
    SectionValue(typed, sec.name, Printed(chapter == "format", shown, sec.entries), sec.tags)
  }

  function Values(typed: bool, shown: string -> bool, chapter: string, ss: seq<Section>): seq<Json> {
    seq(|ss|, i requires 0 <= i < |ss| => Value(typed, shown, chapter, ss[i]))
  }

  function Named(typed: bool, shown: string -> bool, chapter: string, ss: seq<Section>): seq<Member> {
    seq(|ss|, i requires 0 <= i < |ss| => Member(ss[i].name, Value(typed, shown, chapter, ss[i])))
  }

  /** A multi-entry chapter is one array; any other chapter is one object per section. */
  function ChapterMembers(typed: bool, shown: string -> bool, ch: Chapter): seq<Member> {
    if IsMulti(ch.name) then [Member(ch.name, JArray(Values(typed, shown, ch.name, ch.sections)))]
    else Named(typed, shown, ch.name, ch.sections)
  }

  function ReportMembers(shown: string -> bool, r: Report): seq<Member> {
    if r == [] then []
    else ReportMembers(shown, r[..|r| - 1]) + ChapterMembers(TypedAfter(r), shown, r[|r| - 1])
  }

  // ---------- When it is well formed ----------

  /** Tags and the type prefix are separated from the entries by a comma that is printed
      whether or not there are entries. */
  predicate SectionReadable(typed: bool, es: seq<Entry>, tags: Option<seq<Tag>>) {
    es != [] || (!typed && tags.None?)
  }

  predicate Readable(typed: bool, shown: string -> bool, chapter: string, sec: Section) {
    SectionReadable(typed, Printed(chapter == "format", shown, sec.entries), sec.tags)
  }

  predicate AllReadable(typed: bool, shown: string -> bool, chapter: string, ss: seq<Section>) {
    forall i :: 0 <= i < |ss| ==> Readable(typed, shown, chapter, ss[i])
  }

  predicate ReportReadable(shown: string -> bool, r: Report) {
    forall i :: 0 <= i < |r| ==> ReadableAt(shown, r, i)
  }

  predicate ReadableAt(shown: string -> bool, r: Report, i: nat)
    requires i < |r|
  {
    AllReadable(TypedAfter(r[..i + 1]), shown, r[i].name, r[i].sections)
  }

  /** The calls main makes: section names are plain words, and a chapter that is not an
      array has a section. */
  predicate PlainName(s: string) {
    forall i :: 0 <= i < |s| ==> s[i] >= ' ' && s[i] != '"' && s[i] != '\\'
  }

  predicate ValidCalls(r: Report) {
    forall i :: 0 <= i < |r| ==> ValidChapter(r[i])
  }

  predicate ValidChapter(ch: Chapter) {
    (IsMulti(ch.name) || ch.sections != []) && forall j :: 0 <= j < |ch.sections| ==> PlainName(ch.sections[j].name)
  }

  // ---------- Strings and numbers read back ----------

  lemma {:induction false} ScanUndoesEscape(s: string, rest: string)
    ensures ScanString(Escape(s) + ("\"" + rest)) == Some(Scan(s, rest))
  {
    if s == "" {
      EmptyScans(rest);
    } else {
      hide ScanString, Escape, EscapeChar;
      var end := "\"" + rest;
      ScanUndoesEscape(s[1..], rest);
      EscapedCharScans(s[0], Escape(s[1..]) + end);
      EscapeFirst(s);
      Glue(EscapeChar(s[0]), Escape(s[1..]), end);
      assert s == [s[0]] + s[1..];
    }
  }

  lemma EmptyScans(rest: string)
    ensures ScanString(Escape("") + ("\"" + rest)) == Some(Scan("", rest))
  {
    assert Escape("") + ("\"" + rest) == "\"" + rest;
    assert ("\"" + rest)[1..] == rest;
  }

  lemma EscapeFirst(s: string)
    requires s != ""
    ensures Escape(s) == EscapeChar(s[0]) + Escape(s[1..])
  {
  }

  lemma EscapedCharScans(c: char, more: string)
    ensures ScanString(EscapeChar(c) + more) == ConsScan(c, ScanString(more))
  {
    EscapeShape(c);
    hide EscapeChar, Unescape, UnicodeEscape;
    var e := EscapeChar(c);
    var t := e + more;
    assert t[|e|..] == more && t[0] == e[0];
    if |e| == 6 {
      assert t[1] == 'u' && t[2..][..4] == e[2..];
      HexEscape(c, t[2..]);
    } else if |e| == 2 {
      assert t[1] == e[1];
    }
  }

  /** What an escaped character looks like. */
  lemma EscapeShape(c: char)
    ensures var e := EscapeChar(c);
      || (e == [c] && c >= ' ' && c != '"' && c != '\\')
      || (|e| == 2 && e[0] == '\\' && e[1] != 'u' && Unescape(e[1]) == Some(c))
      || (c < ' ' && e == ['\\', 'u', '0', '0', Digit(c as nat / 16), Digit(c as nat % 16)])
  {
  }

  lemma HexEscape(c: char, s: string)
    requires c < ' ' && |s| >= 4 && s[..4] == ['0', '0', Digit(c as nat / 16), Digit(c as nat % 16)]
    ensures UnicodeEscape(s) == Some(c)
  {
    HexDigits(c);
    assert s[0] == s[..4][0] && s[1] == s[..4][1] && s[2] == s[..4][2] && s[3] == s[..4][3];
  }

  lemma HexDigits(c: char)
    requires c < ' '
    ensures HexValue(Digit(c as nat / 16)) == Some(c as nat / 16)
    ensures HexValue(Digit(c as nat % 16)) == Some(c as nat % 16)
    ensures (16 * (c as nat / 16) + c as nat % 16) as char == c
  {
    HexDigit(c as nat / 16);
    HexDigit(c as nat % 16);
  }

  lemma HexDigit(d: nat)
    requires d < 16
    ensures HexValue(Digit(d)) == Some(d)
  {
    assert d in {0, 1, 2, 3, 4, 5, 6, 7, 8, 9, 10, 11, 12, 13, 14, 15};
  }

  /** Text that cannot continue a number. */
  predicate SafeStart(s: string) {
    s == "" || !(IsDigit(s[0]) || s[0] == '.' || s[0] == 'e' || s[0] == 'E' || s[0] == '+' || s[0] == '-')
  }

  lemma IntTextIsNumber(v: int, rest: string)
    requires SafeStart(rest)
    ensures NumberLength(IntText(v) + rest) == |IntText(v)|
  {
    var digits := NatText(if v < 0 then -v else v);
    var sign := if v < 0 then 1 else 0;
    NatTextReads(if v < 0 then -v else v);
    DigitRunConcat(digits, rest);
    assert IsDigit(digits[0]);
    IntLengthOfDigits(digits, rest);
    NothingFollows(rest);
    hide NatText, DigitRun, IntLength, FracLength, ExpLength;
    SignedText(v < 0, digits, rest);
  }

  lemma SignedText(negative: bool, digits: string, rest: string)
    requires digits != "" && IsDigit(digits[0])
    ensures var t := (if negative then "-" + digits else digits) + rest;
      var sign := if negative then 1 else 0;
      && (t[0] == '-' <==> negative) && t[sign..] == digits + rest && t[sign + |digits|..] == rest
  {
    assert negative ==> ("-" + digits) + rest == "-" + (digits + rest);
  }

  lemma IntLengthOfDigits(digits: string, rest: string)
    requires digits != "" && DigitRun(digits + rest) == |digits| && (digits[0] == '0' ==> |digits| == 1)
    ensures IntLength(digits + rest) == |digits|
  {
  }

  lemma NothingFollows(rest: string)
    requires SafeStart(rest)
    ensures FracLength(rest) == 0 && ExpLength(rest) == 0
  {
  }

  // ---------- The text as tokens ----------

  /** text reads as the tokens ts, whatever follows (unless that continues a number). */
  ghost predicate Lexes(text: string, ts: seq<Token>) {
    forall rest {:trigger Lex(text + rest)} :: SafeStart(rest) ==> Lex(text + rest) == Prepend(ts, Lex(rest))
  }

  lemma Compose(a: string, ta: seq<Token>, b: string, tb: seq<Token>)
    requires Lexes(a, ta) && Lexes(b, tb) && SafeStart(b)
    ensures Lexes(a + b, ta + tb)
  {
    hide Lex;
    forall rest | SafeStart(rest)
      ensures Lex((a + b) + rest) == Prepend(ta + tb, Lex(rest))
    {
      assert (a + b) + rest == a + (b + rest);
      assert SafeStart(b + rest);
      assert Lex(a + (b + rest)) == Prepend(ta, Lex(b + rest));
      if Lex(rest).Some? {
        assert ta + (tb + Lex(rest).value) == (ta + tb) + Lex(rest).value;
      }
    }
  }

  lemma {:induction false} SpacesLex(s: string)
    requires forall i :: 0 <= i < |s| ==> IsSpace(s[i])
    ensures Lexes(s, [])
  {
    forall rest | SafeStart(rest)
      ensures Lex(s + rest) == Prepend([], Lex(rest))
    {
      if s == "" {
        assert s + rest == rest;
      } else {
        SpacesLex(s[1..]);
        assert (s + rest)[1..] == s[1..] + rest;
        assert Lex(s[1..] + rest) == Prepend([], Lex(rest));
      }
      if Lex(rest).Some? { assert [] + Lex(rest).value == Lex(rest).value; }
    }
  }

  lemma MarkLexes(c: char, t: Token)
    requires Structural(c) == Some(t)
    ensures Lexes([c], [t])
  {
    forall rest | SafeStart(rest)
      ensures Lex([c] + rest) == Prepend([t], Lex(rest))
    {
      assert ([c] + rest)[1..] == rest;
    }
  }

  /** A structural character and the white space printed with it. */
  lemma MarkThenSpaces(c: char, t: Token, spaces: string)
    requires Structural(c) == Some(t) && forall i :: 0 <= i < |spaces| ==> IsSpace(spaces[i])
    ensures Lexes([c] + spaces, [t])
  {
    MarkLexes(c, t);
    SpacesLex(spaces);
    Compose([c], [t], spaces, []);
    assert [t] + [] == [t];
  }

  lemma QuoteThen(s: string, rest: string)
    ensures Lex(Quote(s) + rest) == Prepend([Text(s)], Lex(rest))
  {
    hide Lex, ScanString, Escape;
    var t := Quote(s) + rest;
    assert t == "\"" + (Escape(s) + ("\"" + rest));
    assert t[1..] == Escape(s) + ("\"" + rest);
    ScanUndoesEscape(s, rest);
    LexString(t);
  }

  lemma LexString(t: string)
    requires t != "" && t[0] == '"'
    ensures Lex(t) ==
      match ScanString(t[1..])
      case Some(scan) => Prepend([Text(scan.text)], Lex(scan.rest))
      case None => None
  {
    hide ScanString, NumberLength;
  }

  lemma QuoteLexes(s: string)
    ensures Lexes(Quote(s), [Text(s)])
  {
    forall rest | SafeStart(rest)
      ensures Lex(Quote(s) + rest) == Prepend([Text(s)], Lex(rest))
    {
      QuoteThen(s, rest);
    }
  }

  lemma {:induction false} PlainIsEscaped(s: string)
    requires PlainName(s)
    ensures Escape(s) == s && Quote(s) == "\"" + s + "\""
  {
    if s != "" {
      PlainIsEscaped(s[1..]);
      assert s == [s[0]] + s[1..];
    }
  }

  lemma NumberLexes(v: int)
    ensures Lexes(IntText(v), [Number(IntText(v))])
  {
    hide NatText, NumberLength;
    forall rest | SafeStart(rest)
      ensures Lex(IntText(v) + rest) == Prepend([Number(IntText(v))], Lex(rest))
    {
      IntTextIsNumber(v, rest);
      NatTextReads(if v < 0 then -v else v);
      LexNumber(IntText(v), rest);
    }
  }

  lemma LexNumber(number: string, rest: string)
    requires number != "" && NumberLength(number + rest) == |number| && (IsDigit(number[0]) || number[0] == '-')
    ensures Lex(number + rest) == Prepend([Number(number)], Lex(rest))
  {
    hide NumberLength;
    var t := number + rest;
    assert t[0] == number[0];
    assert t[..|number|] == number && t[|number|..] == rest;
  }

  lemma EntryLexes(e: Entry)
    ensures Lexes(EntryText(e), MembersTokens([EntryMember(e)]))
  {
    hide Lex, Quote, NumberLength, IntText, ScanString;
    var m := EntryMember(e);
    assert MembersTokens([m]) == [Text(e.key), Colon] + ValueTokens(m.value);
    var value := if e.IntEntry? then IntText(e.number) else Quote(e.text);
    if e.IntEntry? { NumberLexes(e.number); } else { QuoteLexes(e.text); }
    forall rest | SafeStart(rest)
      ensures Lex(EntryText(e) + rest) == Prepend(MembersTokens([m]), Lex(rest))
    {
      assert EntryText(e) + rest == Quote(e.key) + (": " + (value + rest));
      QuoteThen(e.key, ": " + (value + rest));
      ColonSpace(value + rest);
      assert Lex(value + rest) == Prepend(ValueTokens(m.value), Lex(rest));
      assert MembersTokens([m]) == [Text(e.key), Colon] + ValueTokens(m.value);
      assert [Text(e.key)] + [Colon] == [Text(e.key), Colon];
      PrependTwice([Text(e.key)], [Colon], Lex(value + rest));
      PrependTwice([Text(e.key), Colon], ValueTokens(m.value), Lex(rest));
    }
  }

  lemma PrependTwice(a: seq<Token>, b: seq<Token>, r: Option<seq<Token>>)
    ensures Prepend(a, Prepend(b, r)) == Prepend(a + b, r)
  {
    if r.Some? { Regroup(a, b, r.value); }
  }

  lemma ColonSpace(rest: string)
    ensures Lex(": " + rest) == Prepend([Colon], Lex(rest))
  {
    assert (": " + rest)[1..] == " " + rest;
    assert (" " + rest)[1..] == rest;
  }

  lemma ComposeSpaces(a: string, ta: seq<Token>, spaces: string)
    requires Lexes(a, ta) && forall i :: 0 <= i < |spaces| ==> IsSpace(spaces[i])
    ensures Lexes(a + spaces, ta)
  {
    SpacesLex(spaces);
    Compose(a, ta, spaces, []);
    assert ta + [] == ta;
  }

  lemma ComposeMark(a: string, ta: seq<Token>, mark: string, t: Token)
    requires Lexes(a, ta) && mark != "" && Structural(mark[0]) == Some(t)
    requires forall i :: 1 <= i < |mark| ==> IsSpace(mark[i])
    ensures Lexes(a + mark, ta + [t])
  {
    assert mark == [mark[0]] + mark[1..];
    MarkThenSpaces(mark[0], t, mark[1..]);
    Compose(a, ta, mark, [t]);
  }

  lemma ComposeQuote(a: string, ta: seq<Token>, s: string)
    requires Lexes(a, ta)
    ensures Lexes(a + Quote(s), ta + [Text(s)])
  {
    QuoteLexes(s);
    Compose(a, ta, Quote(s), [Text(s)]);
  }

  lemma ComposeKey(a: string, ta: seq<Token>, name: string)
    requires Lexes(a, ta) && PlainName(name)
    ensures Lexes(a + Key(name), ta + [Text(name), Colon])
  {
    hide Lexes;
    PlainIsEscaped(name);
    ComposeQuote(a, ta, name);
    ComposeMark(a + Quote(name), ta + [Text(name)], ": ", Colon);
    assert a + Quote(name) + ": " == a + Key(name);
    assert ta + [Text(name)] + [Colon] == ta + [Text(name), Colon];
  }

  lemma ComposeOpen(a: string, ta: seq<Token>, compact: bool)
    requires Lexes(a, ta)
    ensures Lexes(a + ("{" + StartEnd(compact)), ta + [LBrace])
  {
    hide Lexes;
    ComposeMark(a, ta, "{" + StartEnd(compact), LBrace);
  }

  lemma ComposeClose(a: string, ta: seq<Token>, compact: bool, level: nat)
    requires Lexes(a, ta)
    ensures Lexes(a + StartEnd(compact) + Pad(compact, level) + "}", ta + [RBrace])
  {
    hide Lexes;
    ComposeSpaces(a, ta, StartEnd(compact));
    ComposeSpaces(a + StartEnd(compact), ta, Pad(compact, level));
    ComposeMark(a + StartEnd(compact) + Pad(compact, level), ta, "}", RBrace);
  }

  lemma ComposeSep(a: string, ta: seq<Token>, compact: bool)
    requires Lexes(a, ta)
    ensures Lexes(a + Sep(compact), ta + [Comma])
  {
    hide Lexes;
    ComposeMark(a, ta, Sep(compact), Comma);
  }

  lemma StartsWithQuote(e: Entry)
    ensures SafeStart(EntryText(e))
  {
    assert EntryText(e)[0] == '"';
  }

  lemma ComposeEntry(a: string, ta: seq<Token>, compact: bool, level: nat, e: Entry)
    requires Lexes(a, ta)
    ensures Lexes(a + Pad(compact, level) + EntryText(e), ta + MembersTokens([EntryMember(e)]))
  {
    hide Lexes, EntryText, EntryMember, MembersTokens;
    ComposeSpaces(a, ta, Pad(compact, level));
    EntryLexes(e);
    StartsWithQuote(e);
    Compose(a + Pad(compact, level), ta, EntryText(e), MembersTokens([EntryMember(e)]));
  }

  lemma {:induction false} EntriesLex(compact: bool, level: nat, es: seq<Entry>)
    ensures Lexes(EntriesText(compact, level, es), MembersTokens(EntryMembers(es)))
  {
    hide Lexes, EntryText, EntryMember;
    if es == [] {
      SpacesLex("");
      assert EntryMembers(es) == [];
    } else {
      var init, last := es[..|es| - 1], es[|es| - 1];
      var text, ts := EntriesText(compact, level, init), MembersTokens(EntryMembers(init));
      EntriesLex(compact, level, init);
      assert EntryMembers(es) == EntryMembers(init) + [EntryMember(last)];
      if |es| > 1 {
        ComposeSep(text, ts, compact);
        ComposeEntry(text + Sep(compact), ts + [Comma], compact, level, last);
        MembersConcat(EntryMembers(init), [EntryMember(last)]);
        Regroup(ts, [Comma], MembersTokens([EntryMember(last)]));
      } else {
        assert text + "" == text && EntryMembers(es) == [EntryMember(last)];
        assert ts == [];
        ComposeEntry(text, ts, compact, level, last);
        assert ts + MembersTokens([EntryMember(last)]) == MembersTokens([EntryMember(last)]);
      }
    }
  }

  lemma {:induction false} EntriesStartSafe(compact: bool, level: nat, es: seq<Entry>)
    ensures SafeStart(EntriesText(compact, level, es))
  {
    if es != [] {
      EntriesStartSafe(compact, level, es[..|es| - 1]);
      StartsWithQuote(es[|es| - 1]);
    }
  }

  lemma ComposeEntries(a: string, ta: seq<Token>, compact: bool, level: nat, es: seq<Entry>)
    requires Lexes(a, ta)
    ensures Lexes(a + EntriesText(compact, level, es), ta + MembersTokens(EntryMembers(es)))
  {
    hide Lexes, EntriesText;
    EntriesLex(compact, level, es);
    EntriesStartSafe(compact, level, es);
    Compose(a, ta, EntriesText(compact, level, es), MembersTokens(EntryMembers(es)));
  }

  // ---------- The tokens of a section ----------

  function TagsTokens(tags: Option<seq<Tag>>): seq<Token> {
    if tags.None? then []
    else [Comma] + [Text("tags"), Colon] + [LBrace] + MembersTokens(EntryMembers(TagEntries(tags.value))) + [RBrace]
  }

  function OpenTokens(typed: bool, name: string): seq<Token> {
    if typed then [LBrace] + [Text("type"), Colon] + [Text(name)] + [Comma] else [LBrace]
  }

  function ObjectTokens(typed: bool, name: string, es: seq<Entry>, tags: Option<seq<Tag>>): seq<Token> {
    OpenTokens(typed, name) + MembersTokens(EntryMembers(es)) + TagsTokens(tags) + [RBrace]
  }

  function KeyTokens(multi: bool, name: string): seq<Token> {
    if multi then [] else [Text(name), Colon]
  }

  lemma TagsLex(compact: bool, level: nat, tags: Option<seq<Tag>>)
    ensures Lexes(TagsText(compact, level, tags), TagsTokens(tags)) && SafeStart(TagsText(compact, level, tags))
  {
    hide Lexes, EntriesText, TagEntries;
    SpacesLex("");
    if tags.Some? {
      ComposeSep("", [], compact);
      assert "" + Sep(compact) == Sep(compact) && [] + [Comma] == [Comma];
      ComposeSpaces(Sep(compact), [Comma], Pad(compact, level));
      var a := Sep(compact) + Pad(compact, level);
      ComposeKey(a, [Comma], "tags");
      ComposeOpen(a + Key("tags"), [Comma] + [Text("tags"), Colon], compact);
      var head, headTokens := a + Key("tags") + ("{" + StartEnd(compact)), [Comma] + [Text("tags"), Colon] + [LBrace];
      var es := TagEntries(tags.value);
      ComposeEntries(head, headTokens, compact, level + 1, es);
      ComposeClose(head + EntriesText(compact, level + 1, es), headTokens + MembersTokens(EntryMembers(es)),
                   compact, level);
      assert TagsText(compact, level, tags)[0] == ',';
    }
  }

  lemma HeadLexes(compact: bool, level: nat, multi: bool, typed: bool, name: string)
    requires PlainName(name)
    ensures Lexes(SectionHead(compact, level, multi, typed, name), KeyTokens(multi, name) + OpenTokens(typed, name))
  {
    hide Lexes;
    SpacesLex(Indent(level));
    var key := if multi then Indent(level) else Indent(level) + Key(name);
    if !multi {
      ComposeKey(Indent(level), [], name);
    }
    assert [] + [Text(name), Colon] == [Text(name), Colon];
    ComposeOpen(key, KeyTokens(multi, name), compact);
    if typed {
      var open, openTokens := key + ("{" + StartEnd(compact)), KeyTokens(multi, name) + [LBrace];
      ComposeSpaces(open, openTokens, Pad(compact, level + 1));
      var a := open + Pad(compact, level + 1);
      ComposeKey(a, openTokens, "type");
      PlainIsEscaped(name);
      ComposeQuote(a + Key("type"), openTokens + [Text("type"), Colon], name);
      ComposeSep(a + Key("type") + Quote(name), openTokens + [Text("type"), Colon] + [Text(name)], compact);
      assert openTokens + [Text("type"), Colon] + [Text(name)] + [Comma] ==
             KeyTokens(multi, name) + OpenTokens(typed, name);
    }
  }

  lemma SectionLexes(compact: bool, level: nat, multi: bool, typed: bool, name: string,
                     es: seq<Entry>, tags: Option<seq<Tag>>)
    requires PlainName(name)
    ensures Lexes(SectionText(compact, level, multi, typed, name, es, tags),
                  KeyTokens(multi, name) + ObjectTokens(typed, name, es, tags))
  {
    hide Lexes, SectionHead, EntriesText, TagsText, TagsTokens, OpenTokens, EntryMembers;
    var head := SectionHead(compact, level, multi, typed, name);
    var headTokens := KeyTokens(multi, name) + OpenTokens(typed, name);
    var text, ts := EntriesText(compact, level + 1, es), MembersTokens(EntryMembers(es));
    HeadLexes(compact, level, multi, typed, name);
    ComposeEntries(head, headTokens, compact, level + 1, es);
    TagsLex(compact, level + 1, tags);
    Compose(head + text, headTokens + ts, TagsText(compact, level + 1, tags), TagsTokens(tags));
    var body := head + text + TagsText(compact, level + 1, tags);
    ComposeClose(body, headTokens + ts + TagsTokens(tags), compact, level);
    hide Pad, StartEnd, KeyTokens, MembersTokens;
    Glue3(body, StartEnd(compact), Pad(compact, level), "}");
    GroupTokens(KeyTokens(multi, name), OpenTokens(typed, name), ts, TagsTokens(tags));
  }

  lemma GroupTokens(a: seq<Token>, b: seq<Token>, c: seq<Token>, d: seq<Token>)
    ensures a + b + c + d + [RBrace] == a + (b + c + d + [RBrace])
  {
  }

  lemma EntryMembersNonempty(es: seq<Entry>)
    ensures EntryMembers(es) == [] <==> es == []
    ensures es == [] ==> MembersTokens(EntryMembers(es)) == []
  {
  }

  function TypeMember(typed: bool, name: string): seq<Member> {
    if typed then [Member("type", JString(name))] else []
  }

  function TagsMember(tags: Option<seq<Tag>>): seq<Member> {
    if tags.None? then [] else [Member("tags", JObject(EntryMembers(TagEntries(tags.value))))]
  }

  lemma TypeFirst(typed: bool, name: string, ms: seq<Member>)
    requires typed ==> ms != []
    ensures [LBrace] + MembersTokens(TypeMember(typed, name) + ms) == OpenTokens(typed, name) + MembersTokens(ms)
  {
    hide MembersTokens;
    var ts := MembersTokens(ms);
    if typed {
      MembersConcat(TypeMember(typed, name), ms);
      assert MembersTokens(TypeMember(typed, name)) == [Text("type"), Colon, Text(name)] by {
        OneMember(Member("type", JString(name)));
      }
      assert [LBrace] + ([Text("type"), Colon, Text(name)] + ([Comma] + ts)) == OpenTokens(typed, name) + ts;
    } else {
      assert TypeMember(typed, name) + ms == ms;
    }
  }

  lemma OneMember(m: Member)
    ensures MembersTokens([m]) == [Text(m.name), Colon] + ValueTokens(m.value)
  {
    assert ValueTokens(m.value) + [] == ValueTokens(m.value);
  }

  lemma TagsLast(ms: seq<Member>, tags: Option<seq<Tag>>)
    requires tags.Some? ==> ms != []
    ensures MembersTokens(ms + TagsMember(tags)) == MembersTokens(ms) + TagsTokens(tags)
  {
    hide MembersTokens, EntryMembers, TagEntries;
    if tags.Some? {
      var m := TagsMember(tags)[0];
      MembersConcat(ms, [m]);
      OneMember(m);
      assert TagsTokens(tags) == [Comma] + MembersTokens([m]);
    } else {
      assert ms + [] == ms;
      assert MembersTokens(ms) + [] == MembersTokens(ms);
    }
  }

  /** With an entry where one is needed, the tokens are those of the section's object. */
  lemma ReadableObject(typed: bool, name: string, es: seq<Entry>, tags: Option<seq<Tag>>)
    requires SectionReadable(typed, es, tags)
    ensures ObjectTokens(typed, name, es, tags) == ValueTokens(SectionValue(typed, name, es, tags))
  {
    hide EntryMembers, TagEntries, MembersTokens, OpenTokens, TagsTokens;
    EntryMembersNonempty(es);
    var ms := EntryMembers(es);
    TypeFirst(typed, name, ms);
    TagsLast(TypeMember(typed, name) + ms, tags);
    assert SectionValue(typed, name, es, tags) == JObject(TypeMember(typed, name) + ms + TagsMember(tags));
    Regroup([LBrace], MembersTokens(TypeMember(typed, name) + ms), TagsTokens(tags));
  }

  /** Otherwise a comma stands where a name is due, or a brace after a comma. */
  lemma UnreadableObject(typed: bool, name: string, es: seq<Entry>, tags: Option<seq<Tag>>, rest: seq<Token>)
    requires !SectionReadable(typed, es, tags)
    ensures ParseValue(ObjectTokens(typed, name, es, tags) + rest) == Reject
  {
    hide EntryMembers, TagEntries;
    EntryMembersNonempty(es);
    var tail := TagsTokens(tags) + [RBrace] + rest;
    assert ObjectTokens(typed, name, es, tags) + rest == OpenTokens(typed, name) + tail;
    assert tail[0] == Comma || tail[0] == RBrace;
    if typed {
      TypeThenNothing(name, tail);
    } else {
      assert (OpenTokens(typed, name) + tail)[1..] == tail;
      assert tail[0] == Comma;
    }
  }

  lemma TypeThenNothing(name: string, tail: seq<Token>)
    requires tail != [] && !tail[0].Text?
    ensures ParseValue(OpenTokens(true, name) + tail) == Reject
  {
    var members := [Text("type"), Colon] + ([Text(name)] + ([Comma] + tail));
    TypeMemberRejects(name, tail);
    assert OpenTokens(true, name) + tail == [LBrace] + members;
    assert ([LBrace] + members)[1..] == members;
    hide ParseMembers, ParseElements;
  }

  lemma TypeMemberRejects(name: string, tail: seq<Token>)
    requires tail != [] && !tail[0].Text?
    ensures ParseMembers([Text("type"), Colon] + ([Text(name)] + ([Comma] + tail))) == Reject
  {
    hide ParseElements;
    var value := [Text(name)] + ([Comma] + tail);
    assert ([Text("type"), Colon] + value)[2..] == value;
    assert value[1..] == [Comma] + tail;
    assert ([Comma] + tail)[1..] == tail;
    assert ParseMembers(tail) == Reject;
    assert ParseValue(value) == Accept(JString(name), [Comma] + tail);
  }

  // ---------- Sections, chapters, reports ----------

  function SectionTokens(typed: bool, shown: string -> bool, chapter: string, sec: Section): seq<Token> {
    KeyTokens(IsMulti(chapter), sec.name) +
    ObjectTokens(typed, sec.name, Printed(chapter == "format", shown, sec.entries), sec.tags)
  }

  function SectionsTokens(typed: bool, shown: string -> bool, chapter: string, ss: seq<Section>): seq<Token> {
    if ss == [] then []
    else
      SectionsTokens(typed, shown, chapter, ss[..|ss| - 1]) + (if |ss| > 1 then [Comma] else []) +
      SectionTokens(typed, shown, chapter, ss[|ss| - 1])
  }

  lemma SectionStartsSafe(compact: bool, level: nat, multi: bool, typed: bool, name: string,
                          es: seq<Entry>, tags: Option<seq<Tag>>)
    ensures var t := SectionText(compact, level, multi, typed, name, es, tags); t != "" && t[0] == ' '
  {
    assert Indent(level)[0] == ' ';
  }

  lemma SectionsLex(compact: bool, level: nat, typed: bool, shown: string -> bool, chapter: string, ss: seq<Section>)
    requires forall j :: 0 <= j < |ss| ==> PlainName(ss[j].name)
    ensures Lexes(SectionsText(compact, level, typed, shown, chapter, ss), SectionsTokens(typed, shown, chapter, ss))
    ensures SafeStart(SectionsText(compact, level, typed, shown, chapter, ss))
  {
    SectionsLexTo(compact, level, typed, shown, chapter, ss);
    SectionsStartSafe(compact, level, typed, shown, chapter, ss);
  }

  lemma {:induction false} SectionsStartSafe(compact: bool, level: nat, typed: bool, shown: string -> bool,
                                             chapter: string, ss: seq<Section>)
    ensures SafeStart(SectionsText(compact, level, typed, shown, chapter, ss))
  {
    hide SectionText, IsMulti, Printed;
    if ss != [] {
      var last := ss[|ss| - 1];
      SectionsStartSafe(compact, level, typed, shown, chapter, ss[..|ss| - 1]);
      SectionStartsSafe(compact, level, IsMulti(chapter), typed, last.name,
                        Printed(chapter == "format", shown, last.entries), last.tags);
    }
  }

  lemma {:induction false} SectionsLexTo(compact: bool, level: nat, typed: bool, shown: string -> bool,
                                         chapter: string, ss: seq<Section>)
    requires forall j :: 0 <= j < |ss| ==> PlainName(ss[j].name)
    ensures Lexes(SectionsText(compact, level, typed, shown, chapter, ss), SectionsTokens(typed, shown, chapter, ss))
  {
    hide Lexes, SectionText, SectionTokens, IsMulti, Printed, PlainName;
    if ss == [] {
      SpacesLex("");
    } else {
      hide SectionsText, SectionsTokens;
      LastSection(compact, level, typed, shown, chapter, ss);
      var init, last := ss[..|ss| - 1], ss[|ss| - 1];
      var text := SectionsText(compact, level, typed, shown, chapter, init);
      var ts := SectionsTokens(typed, shown, chapter, init);
      SectionsLexTo(compact, level, typed, shown, chapter, init);
      var t := SectionText(compact, level, IsMulti(chapter), typed, last.name,
                           Printed(chapter == "format", shown, last.entries), last.tags);
      OneSectionLexes(compact, level, typed, shown, chapter, last);
      if |ss| > 1 {
        ComposeMark(text, ts, ",\n", Comma);
        Compose(text + ",\n", ts + [Comma], t, SectionTokens(typed, shown, chapter, last));
      } else {
        Compose(text, ts, t, SectionTokens(typed, shown, chapter, last));
      }
    }
  }

  lemma LastSection(compact: bool, level: nat, typed: bool, shown: string -> bool, chapter: string, ss: seq<Section>)
    requires ss != []
    ensures var init, last := ss[..|ss| - 1], ss[|ss| - 1];
      var text := SectionsText(compact, level, typed, shown, chapter, init);
      var ts := SectionsTokens(typed, shown, chapter, init);
      var t := SectionText(compact, level, IsMulti(chapter), typed, last.name,
                           Printed(chapter == "format", shown, last.entries), last.tags);
      SectionsText(compact, level, typed, shown, chapter, ss) == (if |ss| > 1 then text + ",\n" else text) + t &&
      SectionsTokens(typed, shown, chapter, ss) ==
        (if |ss| > 1 then ts + [Comma] else ts) + SectionTokens(typed, shown, chapter, last)
  {
    hide SectionText, SectionTokens, IsMulti, Printed;
  }

  lemma OneSectionLexes(compact: bool, level: nat, typed: bool, shown: string -> bool, chapter: string, sec: Section)
    requires PlainName(sec.name)
    ensures var t := SectionText(compact, level, IsMulti(chapter), typed, sec.name,
                                 Printed(chapter == "format", shown, sec.entries), sec.tags);
      Lexes(t, SectionTokens(typed, shown, chapter, sec)) && t != "" && t[0] == ' '
  {
    hide Lexes, SectionText, IsMulti, Printed;
    var es := Printed(chapter == "format", shown, sec.entries);
    SectionLexes(compact, level, IsMulti(chapter), typed, sec.name, es, sec.tags);
    SectionStartsSafe(compact, level, IsMulti(chapter), typed, sec.name, es, sec.tags);
  }

  lemma SectionOrReject(typed: bool, shown: string -> bool, chapter: string, sec: Section, rest: seq<Token>)
    requires IsMulti(chapter)
    ensures SectionTokens(typed, shown, chapter, sec) != [] && SectionTokens(typed, shown, chapter, sec)[0] == LBrace
    ensures if Readable(typed, shown, chapter, sec)
            then SectionTokens(typed, shown, chapter, sec) == ValueTokens(Value(typed, shown, chapter, sec))
            else ParseValue(SectionTokens(typed, shown, chapter, sec) + rest) == Reject
  {
    hide SectionReadable, SectionValue, Printed;
    var es := Printed(chapter == "format", shown, sec.entries);
    var ts := ObjectTokens(typed, sec.name, es, sec.tags);
    assert SectionTokens(typed, shown, chapter, sec) == ts by { assert [] + ts == ts; }
    if SectionReadable(typed, es, sec.tags) {
      ReadableObject(typed, sec.name, es, sec.tags);
    } else {
      UnreadableObject(typed, sec.name, es, sec.tags, rest);
    }
  }

  lemma SplitLast(typed: bool, shown: string -> bool, chapter: string, ss: seq<Section>)
    requires ss != []
    ensures var init, last := ss[..|ss| - 1], ss[|ss| - 1];
      && (AllReadable(typed, shown, chapter, ss) <==>
          AllReadable(typed, shown, chapter, init) && Readable(typed, shown, chapter, last))
      && Values(typed, shown, chapter, ss) == Values(typed, shown, chapter, init) + [Value(typed, shown, chapter, last)]
      && Named(typed, shown, chapter, ss) ==
           Named(typed, shown, chapter, init) + [Member(last.name, Value(typed, shown, chapter, last))]
  {
    hide Readable, Value;
    assert ss == ss[..|ss| - 1] + [ss[|ss| - 1]];
  }

  /** The sections of an array chapter: the tokens of its values, or rejected. */
  lemma {:induction false} ArraySections(typed: bool, shown: string -> bool, chapter: string,
                                         ss: seq<Section>, rest: seq<Token>)
    requires IsMulti(chapter)
    ensures SectionsTokens(typed, shown, chapter, ss) == [] ==> ss == []
    ensures SectionsTokens(typed, shown, chapter, ss) != [] ==> SectionsTokens(typed, shown, chapter, ss)[0] == LBrace
    ensures var ts := SectionsTokens(typed, shown, chapter, ss);
      if AllReadable(typed, shown, chapter, ss)
      then ts == ElementsTokens(Values(typed, shown, chapter, ss))
      else ParseElements(ts + rest) == Reject
  {
    hide SectionTokens, Value, Readable, IsMulti, AllReadable, Values, ParseElements;
    if ss == [] {
      NoSections(typed, shown, chapter);
    } else {
      var init, last := ss[..|ss| - 1], ss[|ss| - 1];
      var ts, t := SectionsTokens(typed, shown, chapter, init), SectionTokens(typed, shown, chapter, last);
      var more := (if |ss| > 1 then [Comma] else []) + t;
      assert SectionsTokens(typed, shown, chapter, ss) == ts + more;
      Regroup(ts, more, rest);
      ArraySections(typed, shown, chapter, init, more + rest);
      SplitLast(typed, shown, chapter, ss);
      SectionOrReject(typed, shown, chapter, last, rest);
      if AllReadable(typed, shown, chapter, init) {
        LastElement(Values(typed, shown, chapter, init), t, Value(typed, shown, chapter, last),
                    Readable(typed, shown, chapter, last), rest);
        ValuesLength(typed, shown, chapter, init);
      }
    }
  }

  lemma ValuesLength(typed: bool, shown: string -> bool, chapter: string, ss: seq<Section>)
    ensures |Values(typed, shown, chapter, ss)| == |ss| == |Named(typed, shown, chapter, ss)|
  {
  }

  lemma NoSections(typed: bool, shown: string -> bool, chapter: string)
    ensures AllReadable(typed, shown, chapter, [])
    ensures ElementsTokens(Values(typed, shown, chapter, [])) == MembersTokens(Named(typed, shown, chapter, [])) == []
  {
    assert Values(typed, shown, chapter, []) == [] && Named(typed, shown, chapter, []) == [];
  }

  /** One more element t after the elements vs. */
  lemma LastElement(vs: seq<Json>, t: seq<Token>, v: Json, readable: bool, rest: seq<Token>)
    requires if readable then t == ValueTokens(v) else ParseValue(t + rest) == Reject
    ensures var more := (if vs != [] then [Comma] else []) + t;
      if readable then ElementsTokens(vs) + more == ElementsTokens(vs + [v])
      else ParseElements(ElementsTokens(vs) + (more + rest)) == Reject
  {
    hide ValueTokens;
    var more := (if vs != [] then [Comma] else []) + t;
    if vs == [] {
      assert more == t && ElementsTokens(vs) + (more + rest) == t + rest && vs + [v] == [v];
      assert ElementsTokens(vs) + more == t;
      ElementsUnfold([v]);
    } else if readable {
      ElementsConcat(vs, [v]);
      ElementsUnfold([v]);
    } else {
      Regroup([Comma], t, rest);
      assert ParseElements(t + rest) == Reject;
      ElementsThenReject(vs, t + rest);
    }
  }

  /** The same for the sections of any other chapter, which are members of the report. */
  lemma {:induction false} NamedSections(typed: bool, shown: string -> bool, chapter: string,
                                         ss: seq<Section>, rest: seq<Token>)
    requires !IsMulti(chapter)
    ensures var ts := SectionsTokens(typed, shown, chapter, ss);
      if AllReadable(typed, shown, chapter, ss)
      then ts == MembersTokens(Named(typed, shown, chapter, ss))
      else ParseMembers(ts + rest) == Reject
  {
    hide SectionTokens, Value, Readable, IsMulti, AllReadable, Named, ParseMembers;
    if ss == [] {
      NoSections(typed, shown, chapter);
    } else {
      var init, last := ss[..|ss| - 1], ss[|ss| - 1];
      var ts, t := SectionsTokens(typed, shown, chapter, init), SectionTokens(typed, shown, chapter, last);
      var more := (if |ss| > 1 then [Comma] else []) + t;
      assert SectionsTokens(typed, shown, chapter, ss) == ts + more;
      Regroup(ts, more, rest);
      NamedSections(typed, shown, chapter, init, more + rest);
      SplitLast(typed, shown, chapter, ss);
      MemberOrReject(typed, shown, chapter, last, rest);
      if AllReadable(typed, shown, chapter, init) {
        LastMembers(Named(typed, shown, chapter, init), t, [Member(last.name, Value(typed, shown, chapter, last))],
                    Readable(typed, shown, chapter, last), rest);
        ValuesLength(typed, shown, chapter, init);
      }
    }
  }

  lemma MemberOrReject(typed: bool, shown: string -> bool, chapter: string, sec: Section, rest: seq<Token>)
    requires !IsMulti(chapter)
    ensures var t := SectionTokens(typed, shown, chapter, sec);
      if Readable(typed, shown, chapter, sec)
      then t == MembersTokens([Member(sec.name, Value(typed, shown, chapter, sec))])
      else ParseMembers(t + rest) == Reject
  {
    hide SectionReadable, SectionValue, Printed, ValueTokens, MembersTokens, ObjectTokens;
    var es := Printed(chapter == "format", shown, sec.entries);
    var ts := ObjectTokens(typed, sec.name, es, sec.tags);
    OneMember(Member(sec.name, Value(typed, shown, chapter, sec)));
    if SectionReadable(typed, es, sec.tags) {
      ReadableObject(typed, sec.name, es, sec.tags);
    } else {
      UnreadableObject(typed, sec.name, es, sec.tags, rest);
      var t := [Text(sec.name), Colon] + ts + rest;
      assert t[2..] == ts + rest;
    }
  }

  /** One more group of members t after the members ms. */
  lemma LastMembers(ms: seq<Member>, t: seq<Token>, group: seq<Member>, readable: bool, rest: seq<Token>)
    requires group != []
    requires if readable then t == MembersTokens(group) else ParseMembers(t + rest) == Reject
    ensures var more := (if ms != [] then [Comma] else []) + t;
      if readable then MembersTokens(ms) + more == MembersTokens(ms + group)
      else ParseMembers(MembersTokens(ms) + (more + rest)) == Reject
  {
    var more := (if ms != [] then [Comma] else []) + t;
    if ms == [] {
      assert more == t && MembersTokens(ms) + (more + rest) == t + rest && ms + group == group;
      assert MembersTokens(ms) + more == t;
    } else if readable {
      MembersConcat(ms, group);
    } else {
      Regroup([Comma], t, rest);
      MembersThenReject(ms, t + rest);
    }
  }

  function ChapterTokens(typed: bool, shown: string -> bool, ch: Chapter): seq<Token> {
    var ts := SectionsTokens(typed, shown, ch.name, ch.sections);
    if IsMulti(ch.name) then [Text(ch.name)] + [Colon] + [LBracket] + ts + [RBracket] else ts
  }

  lemma ChapterLexes(compact: bool, typed: bool, shown: string -> bool, ch: Chapter)
    requires ValidChapter(ch)
    ensures Lexes(ChapterText(compact, typed, shown, ch), ChapterTokens(typed, shown, ch))
    ensures SafeStart(ChapterText(compact, typed, shown, ch))
  {
    hide Lexes, SectionsText, SectionsTokens, IsMulti;
    var level := if IsMulti(ch.name) then 2 else 1;
    SectionsLex(compact, level, typed, shown, ch.name, ch.sections);
    if IsMulti(ch.name) {
      var text := SectionsText(compact, 2, typed, shown, ch.name, ch.sections);
      var ts := SectionsTokens(typed, shown, ch.name, ch.sections);
      SpacesLex(Indent(1));
      ComposeQuote(Indent(1), [], ch.name);
      assert [] + [Text(ch.name)] == [Text(ch.name)];
      ComposeMark(Indent(1) + Quote(ch.name), [Text(ch.name)], ": ", Colon);
      ComposeMark(Indent(1) + Quote(ch.name) + ": ", [Text(ch.name)] + [Colon], "[\n", LBracket);
      var head, headTokens := Indent(1) + Quote(ch.name) + ": " + "[\n", [Text(ch.name)] + [Colon] + [LBracket];
      Compose(head, headTokens, text, ts);
      ComposeSpaces(head + text, headTokens + ts, "\n");
      ComposeSpaces(head + text + "\n", headTokens + ts, Indent(1));
      ComposeMark(head + text + "\n" + Indent(1), headTokens + ts, "]", RBracket);
      assert head == Indent(1) + Quote(ch.name) + ": [\n";
      assert Indent(1)[0] == ' ';
    }
  }

  /** A chapter with sections contributes its members, or is rejected. */
  lemma ChapterOrReject(typed: bool, shown: string -> bool, ch: Chapter, rest: seq<Token>)
    requires ValidChapter(ch)
    ensures ChapterMembers(typed, shown, ch) != []
    ensures var t := ChapterTokens(typed, shown, ch);
      if AllReadable(typed, shown, ch.name, ch.sections) then t == MembersTokens(ChapterMembers(typed, shown, ch))
      else ParseMembers(t + rest) == Reject
  {
    hide Value, Readable, SectionsTokens, SectionValue, SectionReadable, Printed;
    var ss := ch.sections;
    ValuesLength(typed, shown, ch.name, ss);
    if IsMulti(ch.name) {
      hide AllReadable, Values;
      var ts := SectionsTokens(typed, shown, ch.name, ss);
      ArraySections(typed, shown, ch.name, ss, [RBracket] + rest);
      var m := Member(ch.name, JArray(Values(typed, shown, ch.name, ss)));
      OneMember(m);
      if AllReadable(typed, shown, ch.name, ss) {
        assert ChapterTokens(typed, shown, ch) == [Text(ch.name), Colon] + ([LBracket] + ts + [RBracket]);
      } else {
        RejectedArray(ch.name, ts, rest);
      }
    } else {
      NamedSections(typed, shown, ch.name, ss, rest);
    }
  }

  lemma RejectedArray(name: string, ts: seq<Token>, rest: seq<Token>)
    requires ts != [] && ts[0] == LBrace && ParseElements(ts + ([RBracket] + rest)) == Reject
    ensures ParseMembers([Text(name)] + [Colon] + [LBracket] + ts + [RBracket] + rest) == Reject
  {
    var t := [Text(name)] + [Colon] + [LBracket] + ts + [RBracket] + rest;
    assert t[2..] == [LBracket] + (ts + ([RBracket] + rest));
    assert t[2..][1..] == ts + ([RBracket] + rest);
  }

  function BodyTokens(shown: string -> bool, r: Report): seq<Token> {
    if r == [] then []
    else
      BodyTokens(shown, r[..|r| - 1]) +
      ((if |r| > 1 then [Comma] else []) + ChapterTokens(TypedAfter(r), shown, r[|r| - 1]))
  }

  lemma {:induction false} BodyLexes(compact: bool, shown: string -> bool, r: Report)
    requires ValidCalls(r)
    ensures Lexes(BodyText(compact, shown, r), BodyTokens(shown, r))
    ensures SafeStart(BodyText(compact, shown, r))
  {
    hide Lexes, ChapterText, ChapterTokens, TypedAfter, ValidChapter;
    if r == [] {
      SpacesLex("");
    } else {
      var init, last := r[..|r| - 1], r[|r| - 1];
      var text, ts := BodyText(compact, shown, init), BodyTokens(shown, init);
      var t, tt := ChapterText(compact, TypedAfter(r), shown, last), ChapterTokens(TypedAfter(r), shown, last);
      BodyLexes(compact, shown, init);
      ChapterLexes(compact, TypedAfter(r), shown, last);
      var comma, commaTokens := if |r| > 1 then "," else "", if |r| > 1 then [Comma] else [];
      if |r| > 1 {
        ComposeMark(text, ts, ",", Comma);
      } else {
        assert text + "" == text && ts + [] == ts;
      }
      ComposeSpaces(text + comma, ts + commaTokens, "\n");
      Compose(text + comma + "\n", ts + commaTokens, t, tt);
      Regroup(ts, commaTokens, tt);
    }
  }

  lemma ReadableSplit(shown: string -> bool, r: Report)
    requires r != []
    ensures ReportReadable(shown, r) <==>
      ReportReadable(shown, r[..|r| - 1]) &&
      AllReadable(TypedAfter(r), shown, r[|r| - 1].name, r[|r| - 1].sections)
  {
    hide AllReadable, TypedAfter, ReadableAt;
    var init, last := r[..|r| - 1], r[|r| - 1];
    LastReadable(shown, r);
    if ReportReadable(shown, r) {
      forall i: nat | i < |init| ensures ReadableAt(shown, init, i) {
        EarlierReadable(shown, r, i);
        assert ReadableAt(shown, r, i);
      }
    }
    if ReportReadable(shown, init) && ReadableAt(shown, r, |r| - 1) {
      forall i: nat | i < |r| ensures ReadableAt(shown, r, i) {
        if i < |init| {
          EarlierReadable(shown, r, i);
          assert ReadableAt(shown, init, i);
        }
      }
    }
  }

  lemma LastReadable(shown: string -> bool, r: Report)
    requires r != []
    ensures ReadableAt(shown, r, |r| - 1) <==>
            AllReadable(TypedAfter(r), shown, r[|r| - 1].name, r[|r| - 1].sections)
  {
    assert r[..|r|] == r;
  }

  lemma EarlierReadable(shown: string -> bool, r: Report, i: nat)
    requires i + 1 < |r|
    ensures ReadableAt(shown, r[..|r| - 1], i) <==> ReadableAt(shown, r, i)
  {
    assert r[..|r| - 1][..i + 1] == r[..i + 1];
  }

  lemma {:induction false} BodyOrReject(shown: string -> bool, r: Report, rest: seq<Token>)
    requires ValidCalls(r)
    ensures ReportMembers(shown, r) == [] <==> r == []
    ensures if ReportReadable(shown, r) then BodyTokens(shown, r) == MembersTokens(ReportMembers(shown, r))
            else ParseMembers(BodyTokens(shown, r) + rest) == Reject
  {
    hide ChapterTokens, ChapterMembers, AllReadable, TypedAfter, ValidChapter, ParseMembers, MembersTokens;
    if r != [] {
      var init, last := r[..|r| - 1], r[|r| - 1];
      var typed := TypedAfter(r);
      var ts, t := BodyTokens(shown, init), ChapterTokens(typed, shown, last);
      var more := (if |r| > 1 then [Comma] else []) + t;
      Regroup(ts, more, rest);
      BodyOrReject(shown, init, more + rest);
      ReadableSplit(shown, r);
      ChapterOrReject(typed, shown, last, rest);
      if ReportReadable(shown, init) {
        LastMembers(ReportMembers(shown, init), t, ChapterMembers(typed, shown, last),
                    AllReadable(typed, shown, last.name, last.sections), rest);
      }
    } else {
      assert MembersTokens([]) == [] by { EntryMembersNonempty([]); assert EntryMembers([]) == []; }
    }
  }

  lemma ReportLexes(compact: bool, shown: string -> bool, r: Report)
    requires ValidCalls(r)
    ensures Lex(ReportText(compact, shown, r)) == Some([LBrace] + BodyTokens(shown, r) + [RBrace])
  {
    hide BodyText, BodyTokens, Lex;
    var text, ts := BodyText(compact, shown, r), BodyTokens(shown, r);
    BodyLexes(compact, shown, r);
    SpacesLex("");
    ComposeMark("", [], "{", LBrace);
    assert "" + "{" == "{" && [] + [LBrace] == [LBrace];
    Compose("{", [LBrace], text, ts);
    ComposeSpaces("{" + text, [LBrace] + ts, "\n");
    ComposeMark("{" + text + "\n", [LBrace] + ts, "}\n", RBrace);
    var whole := "{" + text + "\n" + "}\n";
    assert ReportText(compact, shown, r) == whole == whole + "";
    assert Lex(whole + "") == Prepend([LBrace] + ts + [RBrace], Lex(""));
    assert Lex("") == Some([]) by { EmptyLexes(); }
    assert [LBrace] + ts + [RBrace] + [] == [LBrace] + ts + [RBrace];
  }

  lemma EmptyLexes()
    ensures Lex("") == Some([])
  {
  }

  /** The JSON output of a run is a JSON text exactly when every section that gets a type
      prefix or tags has at least one printed entry; it then denotes the report. */
  lemma ReportIsJson(compact: bool, shown: string -> bool, r: Report)
    requires ValidCalls(r)
    ensures Parse(ReportText(compact, shown, r)) ==
      if ReportReadable(shown, r) then Some(JObject(ReportMembers(shown, r))) else None
  {
    hide ReportText, BodyTokens, ReportMembers, ValidCalls, ReadableAt, Lex;
    var ts := [LBrace] + BodyTokens(shown, r) + [RBrace];
    ReportLexes(compact, shown, r);
    BodyOrReject(shown, r, [RBrace]);
    if ReportReadable(shown, r) {
      var j := JObject(ReportMembers(shown, r));
      ParseInvertsTokens(j, []);
      assert ts == ValueTokens(j) == ValueTokens(j) + [];
    } else {
      assert ts[1..] == BodyTokens(shown, r) + [RBrace];
      assert ts[0] == LBrace;
      BodyStartsWithName(shown, r);
    }
  }

  lemma {:induction false} SectionsStartWithName(typed: bool, shown: string -> bool, chapter: string, ss: seq<Section>)
    requires !IsMulti(chapter) && ss != []
    ensures var ts := SectionsTokens(typed, shown, chapter, ss); ts != [] && ts[0].Text?
  {
    hide ObjectTokens, IsMulti, Printed;
    if |ss| > 1 {
      SectionsStartWithName(typed, shown, chapter, ss[..|ss| - 1]);
    }
  }

  lemma {:induction false} BodyStartsWithName(shown: string -> bool, r: Report)
    requires ValidCalls(r) && r != []
    ensures BodyTokens(shown, r) != [] && BodyTokens(shown, r)[0].Text?
  {
    hide IsMulti, TypedAfter, SectionsTokens, PlainName;
    if |r| > 1 {
      BodyStartsWithName(shown, r[..|r| - 1]);
    } else {
      var ch := r[0];
      if !IsMulti(ch.name) { SectionsStartWithName(TypedAfter(r), shown, ch.name, ch.sections); }
    }
  }

  /** The case is reachable: when -show_format_entry selects no printed entry, a format
      section with tags starts with a comma. */
  lemma NoSelectedEntryBreaksJson(compact: bool, file: string, tag: Tag)
    ensures var section := Section("format", [StrEntry("filename", file, false)], Some([tag]));
            Parse(ReportText(compact, key => false, [Chapter("format", [section])])) == None
  {
    var section := Section("format", [StrEntry("filename", file, false)], Some([tag]));
    var r := [Chapter("format", [section])];
    var none := (key: string) => false;
    assert Printed(true, none, section.entries) == [] by { assert section.entries[..0] == []; }
    assert !ReadableAt(none, r, 0) by {
      assert !Readable(TypedAfter(r[..1]), none, "format", r[0].sections[0]);
    }
    hide ReportText, Parse;
    ReportIsJson(compact, none, r);
    assert ReportText(compact, key => false, r) == ReportText(compact, none, r);
  }
}
