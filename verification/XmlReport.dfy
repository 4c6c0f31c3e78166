/** What ffprobe's XML writer prints for a report, and what a reader makes of it. */
module XmlReport {
  import opened Options
  import opened ProbeReport
  import opened XmlGrammar

  // ---------- The text ----------

  function EscapeChar(c: char): string {
    match c
    case '&' => "&amp;"
    case '<' => "&lt;"
    case '>' => "&gt;"
    case '"' => "&quot;"
    case '\'' => "&apos;"
    case _ => [c]
  }

  function Escape(s: string): string {
    if s == "" then "" else EscapeChar(s[0]) + Escape(s[1..])
  }

  function AttrText(e: Entry): string {
    e.key + "=\"" + Escape(ValueText(e)) + "\""
  }

  function AttrsText(es: seq<Entry>): string {
    if es == [] then ""
    else AttrsText(es[..|es| - 1]) + (if |es| > 1 then " " else "") + AttrText(es[|es| - 1])
  }

  function TagAttrs(t: Tag): seq<Entry> {
    [StrEntry("key", t.key, false), StrEntry("value", t.text, false)]
  }

  function TagLine(level: nat, t: Tag): string {
    Indent(level) + ("<" + "tag" + " " + AttrsText(TagAttrs(t)) + "/>\n")
  }

  function TagLines(level: nat, tags: seq<Tag>): string {
    if tags == [] then "" else TagLines(level, tags[..|tags| - 1]) + TagLine(level, tags[|tags| - 1])
  }

  function EndLine(level: nat, name: string): string {
    Indent(level) + ("</" + name + ">\n")
  }

  /** The start tag is closed by the first tag, or by the footer if there is none. */
  function SectionText(level: nat, name: string, es: seq<Entry>, tags: seq<Tag>): string {
    Indent(level) + ("<" + name + " " + AttrsText(es) + (if tags == [] then "/>\n" else ">\n")) +
    (if tags == [] then "" else TagLines(level + 1, tags) + EndLine(level, name))
  }

  function TagsOf(sec: Section): seq<Tag> {
    if sec.tags.None? then [] else sec.tags.value
  }

  function SectionsText(level: nat, shown: string -> bool, chapter: string, ss: seq<Section>): string {
    if ss == [] then ""
    else
      var last := ss[|ss| - 1];
      SectionsText(level, shown, chapter, ss[..|ss| - 1]) +
      SectionText(level, last.name, Printed(chapter == "format", shown, last.entries), TagsOf(last))
  }

  function ChapterText(shown: string -> bool, ch: Chapter): string {
    if IsMulti(ch.name) then
      Indent(1) + ("<" + ch.name + ">\n") + SectionsText(2, shown, ch.name, ch.sections) + EndLine(1, ch.name)
    else SectionsText(1, shown, ch.name, ch.sections)
  }

  function BodyText(shown: string -> bool, r: Report): string {
    if r == [] then ""
    else BodyText(shown, r[..|r| - 1]) + (if |r| > 1 then "\n" else "") + ChapterText(shown, r[|r| - 1])
  }

  function ReportText(shown: string -> bool, r: Report): string {
    XML_DECLARATION + ("\n" + ("<ffprobe>\n" + BodyText(shown, r) + "</ffprobe>\n"))
  }

  // ---------- The document it stands for ----------

  predicate Legal(s: string) {
    forall i :: 0 <= i < |s| ==> LegalChar(s[i])
  }

  /** A value as an XML processor reports it: white space characters become spaces. */
  function NormalText(s: string): string {
    seq(|s|, i requires 0 <= i < |s| => Normal(s[i]))
  }

  function AttrOf(e: Entry): Attr {
    Attr(e.key, NormalText(ValueText(e)))
  }

  function Attrs(es: seq<Entry>): seq<Attr> {
    seq(|es|, i requires 0 <= i < |es| => AttrOf(es[i]))
  }

  predicate EntriesReadable(es: seq<Entry>) {
    (forall i :: 0 <= i < |es| ==> Legal(ValueText(es[i]))) && Distinct(Attrs(es))
  }

  function TagElement(t: Tag): Written {
    Written("tag", Attrs(TagAttrs(t)), true, [])
  }

  function TagElements(tags: seq<Tag>): seq<Written> {
    seq(|tags|, i requires 0 <= i < |tags| => TagElement(tags[i]))
  }

  function SectionElement(name: string, es: seq<Entry>, tags: seq<Tag>): Written {
    Written(name, Attrs(es), tags == [], TagElements(tags))
  }

  predicate SectionReadable(es: seq<Entry>, tags: seq<Tag>) {
    EntriesReadable(es) && forall i :: 0 <= i < |tags| ==> EntriesReadable(TagAttrs(tags[i]))
  }

  // ---------- Reading values and names ----------

  lemma {:induction false} ScanUndoesEscape(v: string, rest: string)
    ensures ScanValue(Escape(v) + ("\"" + rest)) == if Legal(v) then Some(Scan(NormalText(v), rest)) else None
  {
    if v == "" {
      EmptyScans(rest);
    } else {
      hide ScanValue, Escape, EscapeChar, LegalChar, Normal, NormalText, Legal;
      var end := "\"" + rest;
      ScanUndoesEscape(v[1..], rest);
      EscapedCharScans(v[0], Escape(v[1..]) + end);
      EscapeFirst(v);
      Glue(EscapeChar(v[0]), Escape(v[1..]), end);
    }
  }

  lemma EmptyScans(rest: string)
    ensures ScanValue(Escape("") + ("\"" + rest)) == Some(Scan(NormalText(""), rest)) && Legal("")
  {
    assert Escape("") + ("\"" + rest) == "\"" + rest;
    assert ("\"" + rest)[1..] == rest;
    assert NormalText("") == "";
  }

  lemma EscapeFirst(v: string)
    requires v != ""
    ensures Escape(v) == EscapeChar(v[0]) + Escape(v[1..])
    ensures NormalText(v) == [Normal(v[0])] + NormalText(v[1..])
    ensures Legal(v) <==> LegalChar(v[0]) && Legal(v[1..])
  {
    hide EscapeChar, LegalChar, Normal;
    assert v == [v[0]] + v[1..];
  }

  lemma EscapedCharScans(c: char, more: string)
    ensures ScanValue(EscapeChar(c) + more) == if LegalChar(c) then ConsScan(Normal(c), ScanValue(more)) else None
  {
    var e := EscapeChar(c);
    var t := e + more;
    assert t[|e|..] == more;
    if c == '&' { assert "&amp;" <= t; }
    else if c == '<' { assert "&lt;" <= t && !("&amp;" <= t) by { assert t[1] == 'l'; } }
    else if c == '>' { assert "&gt;" <= t && t[1] == 'g'; }
    else if c == '"' { assert "&quot;" <= t && t[1] == 'q'; }
    else if c == '\'' { assert "&apos;" <= t && t[1] == 'a' && t[2] == 'p'; }
    else { assert t[0] == c; }
  }

  /** A name followed by anything that is not a name character. */
  lemma {:induction false} NameIsScanned(name: string, rest: string)
    requires forall i :: 0 <= i < |name| ==> NameChar(name[i])
    requires rest != "" ==> !NameChar(rest[0])
    ensures NameRun(name + rest) == |name|
    ensures IsName(name) ==> NameLength(name + rest) == |name|
    ensures (name + rest)[..|name|] == name && (name + rest)[|name|..] == rest
  {
    if name == "" {
      assert name + rest == rest;
    } else {
      hide NameChar;
      NameIsScanned(name[1..], rest);
      DropFirst(name, rest);
    }
  }

  lemma DropFirst(a: string, b: string)
    requires a != ""
    ensures (a + b)[1..] == a[1..] + b
  {
  }

  /** Attributes as the reader sees them: each after one space. */
  function Spaced(es: seq<Entry>): string {
    if es == [] then "" else " " + AttrText(es[0]) + Spaced(es[1..])
  }

  lemma {:induction false} SpacedConcat(a: seq<Entry>, b: seq<Entry>)
    ensures Spaced(a + b) == Spaced(a) + Spaced(b)
  {
    hide AttrText;
    if a == [] {
      assert a + b == b;
    } else {
      assert (a + b)[1..] == a[1..] + b;
      SpacedConcat(a[1..], b);
    }
  }

  lemma {:induction false} SpacedIsAttrs(es: seq<Entry>)
    requires es != []
    ensures " " + AttrsText(es) == Spaced(es)
  {
    hide AttrText;
    var init, last := es[..|es| - 1], es[|es| - 1];
    assert es == init + [last];
    SpacedConcat(init, [last]);
    assert Spaced([last]) == " " + AttrText(last);
    if init != [] {
      SpacedIsAttrs(init);
    }
  }

  predicate NameKeys(es: seq<Entry>) {
    forall i :: 0 <= i < |es| ==> IsName(es[i].key)
  }

  predicate AllLegal(es: seq<Entry>) {
    forall i :: 0 <= i < |es| ==> Legal(ValueText(es[i]))
  }

  lemma AttrIsScanned(e: Entry, more: string)
    requires IsName(e.key)
    ensures ScanAttrs(" " + (AttrText(e) + more)) ==
      if Legal(ValueText(e)) then ConsAttr(AttrOf(e), ScanAttrs(more)) else None
  {
    hide ScanValue, ScanAttrs, Escape, ValueText, AttrText, Legal, NormalText;
    var v := Escape(ValueText(e));
    var afterName := "=\"" + (v + ("\"" + more));
    AttrSplits(e, more);
    NameIsScanned(e.key, afterName);
    assert e.key + afterName == AttrText(e) + more;
    OneAttr(e.key + afterName, e.key, v + ("\"" + more));
    ScanUndoesEscape(ValueText(e), more);
  }

  lemma AttrSplits(e: Entry, more: string)
    ensures AttrText(e) + more == e.key + ("=\"" + (Escape(ValueText(e)) + ("\"" + more)))
  {
    hide Escape, ValueText;
  }

  /** A name, the equals sign and an opening quotation mark, and a value. */
  lemma OneAttr(t: string, name: string, value: string)
    requires IsName(name) && NameLength(t) == |name| && t[..|name|] == name && t[|name|..] == "=\"" + value
    ensures ScanAttrs(" " + t) ==
      match ScanValue(value)
      case Some(scan) => ConsAttr(Attr(name, scan.text), ScanAttrs(scan.rest))
      case None => None
  {
    hide ScanValue, NameLength;
    var s := " " + t;
    assert t[0] == name[0];
    assert s[1..] == t && SpaceRun(t) == 0 && SpaceRun(s) == 1;
    assert ("=\"" + value)[2..] == value;
    assert t[|name|..][2..] == t[|name| + 2..];
  }

  lemma {:induction false} AttrsAreScanned(es: seq<Entry>, end: string, empty: bool, rest: string)
    requires NameKeys(es) && ScanAttrs(end) == Some(TagEnd([], empty, rest))
    ensures ScanAttrs(Spaced(es) + end) == if AllLegal(es) then Some(TagEnd(Attrs(es), empty, rest)) else None
  {
    if es == [] {
      assert Spaced(es) + end == end;
      assert Attrs(es) == [];
    } else {
      hide ScanAttrs, AttrText, Legal, ValueText, AllLegal, Attrs, AttrOf;
      AttrsAreScanned(es[1..], end, empty, rest);
      AttrIsScanned(es[0], Spaced(es[1..]) + end);
      FirstSpaced(es, end);
      FirstAttr(es);
    }
  }

  lemma FirstSpaced(es: seq<Entry>, end: string)
    requires es != []
    ensures Spaced(es) + end == " " + (AttrText(es[0]) + (Spaced(es[1..]) + end))
  {
    hide AttrText;
  }

  lemma FirstAttr(es: seq<Entry>)
    requires es != []
    ensures AllLegal(es) <==> Legal(ValueText(es[0])) && AllLegal(es[1..])
    ensures Attrs(es) == [AttrOf(es[0])] + Attrs(es[1..])
  {
    hide Legal, ValueText, AttrOf;
    assert es == [es[0]] + es[1..];
  }

  // ---------- Reading tags ----------

  /** Whatever follows, text reads as these tags, or (None) makes the reader refuse. */
  ghost predicate Reads(text: string, r: Option<seq<Token>>) {
    forall rest {:trigger Lex(text + rest)} :: Lex(text + rest) == if r.Some? then Prepend(r.value, Lex(rest)) else None
  }

  function Join(a: Option<seq<Token>>, b: Option<seq<Token>>): Option<seq<Token>> {
    if a.Some? && b.Some? then Some(a.value + b.value) else None
  }

  lemma Compose(a: string, ra: Option<seq<Token>>, b: string, rb: Option<seq<Token>>)
    requires Reads(a, ra) && Reads(b, rb)
    ensures Reads(a + b, Join(ra, rb))
  {
    hide Lex;
    forall rest
      ensures Lex((a + b) + rest) == if Join(ra, rb).Some? then Prepend(Join(ra, rb).value, Lex(rest)) else None
    {
      assert (a + b) + rest == a + (b + rest);
      assert Lex(a + (b + rest)) == if ra.Some? then Prepend(ra.value, Lex(b + rest)) else None;
      if ra.Some? && rb.Some? && Lex(rest).Some? {
        assert ra.value + (rb.value + Lex(rest).value) == (ra.value + rb.value) + Lex(rest).value;
      }
    }
  }

  lemma {:induction false} SpacesRead(s: string)
    requires forall i :: 0 <= i < |s| ==> IsSpace(s[i])
    ensures Reads(s, Some([]))
  {
    forall rest
      ensures Lex(s + rest) == Prepend([], Lex(rest))
    {
      if s == "" {
        assert s + rest == rest;
      } else {
        SpacesRead(s[1..]);
        assert (s + rest)[1..] == s[1..] + rest;
        assert Lex(s[1..] + rest) == Prepend([], Lex(rest));
      }
      if Lex(rest).Some? { assert [] + Lex(rest).value == Lex(rest).value; }
    }
  }

  lemma SpacesThen(spaces: string, text: string, r: Option<seq<Token>>)
    requires (forall i :: 0 <= i < |spaces| ==> IsSpace(spaces[i])) && Reads(text, r)
    ensures Reads(spaces + text, r)
  {
    hide Reads;
    SpacesRead(spaces);
    Compose(spaces, Some([]), text, r);
    if r.Some? { assert [] + r.value == r.value; }
  }

  lemma NewLine(rest: string)
    ensures Lex("\n" + rest) == Lex(rest)
  {
    assert ("\n" + rest)[1..] == rest;
  }

  lemma TagCloses(empty: bool, rest: string)
    ensures var end := (if empty then "/>\n" else ">\n") + rest;
      ScanAttrs(end) == ScanAttrs(" " + end) == Some(TagEnd([], empty, "\n" + rest))
  {
    var end := (if empty then "/>\n" else ">\n") + rest;
    var s := " " + end;
    assert SpaceRun(end) == 0 && s[1..] == end && SpaceRun(s) == 1;
    assert end[0..] == end;
    if empty {
      assert "/>" <= end && end[2..] == "\n" + rest;
    } else {
      assert ">" <= end && end[1..] == "\n" + rest;
    }
  }

  /** A start tag with its attributes: refused when a value has an illegal character or a
      name appears twice. */
  lemma StartTagReads(name: string, es: seq<Entry>, empty: bool)
    requires IsName(name) && NameKeys(es)
    ensures Reads("<" + name + " " + AttrsText(es) + (if empty then "/>\n" else ">\n"),
                  if EntriesReadable(es) then Some([StartTag(name, Attrs(es), empty)]) else None)
  {
    hide AttrsText, Attrs, Lex, EntriesReadable;
    var close := if empty then "/>\n" else ">\n";
    forall rest
      ensures Lex("<" + name + " " + AttrsText(es) + close + rest) ==
              if EntriesReadable(es) then Prepend([StartTag(name, Attrs(es), empty)], Lex(rest)) else None
    {
      StartTagThen(name, es, empty, close, rest);
    }
  }

  lemma StartTagThen(name: string, es: seq<Entry>, empty: bool, close: string, rest: string)
    requires IsName(name) && NameKeys(es) && close == if empty then "/>\n" else ">\n"
    ensures Lex("<" + name + " " + AttrsText(es) + close + rest) ==
            if EntriesReadable(es) then Prepend([StartTag(name, Attrs(es), empty)], Lex(rest)) else None
  {
    hide AttrsText, ScanAttrs, Attrs, NameLength, Lex, Distinct, AllLegal, EntriesReadable;
    var tail := " " + AttrsText(es) + close + rest;
    TailScans(es, empty, rest);
    StartTagText(name, AttrsText(es), close, rest);
    NameIsScanned(name, tail);
    LexStartTag(name, tail);
    NewLine(rest);
    SameReadable(es);
  }

  lemma SameReadable(es: seq<Entry>)
    ensures EntriesReadable(es) <==> AllLegal(es) && Distinct(Attrs(es))
  {
  }

  lemma StartTagText(name: string, attrs: string, close: string, rest: string)
    ensures "<" + name + " " + attrs + close + rest == "<" + (name + (" " + attrs + close + rest))
    ensures (" " + attrs + close + rest)[0] == ' '
  {
    Glue3("<" + name, " ", attrs, close);
    Glue("<" + name, " " + attrs + close, rest);
    Glue("<", name, " " + attrs + close + rest);
  }

  lemma TailScans(es: seq<Entry>, empty: bool, rest: string)
    requires NameKeys(es)
    ensures var close := if empty then "/>\n" else ">\n";
      ScanAttrs(" " + AttrsText(es) + close + rest) ==
        if AllLegal(es) then Some(TagEnd(Attrs(es), empty, "\n" + rest)) else None
  {
    hide ScanAttrs, Spaced, AttrText;
    var close := if empty then "/>\n" else ">\n";
    var end := close + rest;
    TagCloses(empty, rest);
    AttrsAreScanned(es, end, empty, "\n" + rest);
    Glue(" " + AttrsText(es), close, rest);
    if es == [] {
      assert " " + AttrsText(es) == " ";
      assert Attrs(es) == [];
    } else {
      SpacedIsAttrs(es);
    }
  }

  lemma LexStartTag(name: string, tail: string)
    requires IsName(name) && NameLength(name + tail) == |name|
    requires (name + tail)[..|name|] == name && (name + tail)[|name|..] == tail
    ensures Lex("<" + (name + tail)) ==
      match ScanAttrs(tail)
      case Some(end) =>
        if Distinct(end.attrs) then Prepend([StartTag(name, end.attrs, end.empty)], Lex(end.rest)) else None
      case None => None
  {
    hide ScanAttrs, NameLength, Distinct;
    var s := "<" + (name + tail);
    assert s[1..] == name + tail;
    assert s[1] == name[0] != '/';
    assert s[1..1 + |name|] == name && s[1 + |name|..] == tail;
  }

  lemma EndTagReads(name: string)
    requires IsName(name)
    ensures Reads("</" + name + ">\n", Some([EndTag(name)]))
  {
    forall rest
      ensures Lex("</" + name + ">\n" + rest) == Prepend([EndTag(name)], Lex(rest))
    {
      hide NameLength, Lex;
      var tail := ">" + ("\n" + rest);
      assert ">\n" + rest == tail;
      Glue("</" + name, ">\n", rest);
      Glue("</", name, tail);
      NameIsScanned(name, tail);
      LexEndTag(name, "\n" + rest);
      NewLine(rest);
    }
  }

  lemma LexEndTag(name: string, rest: string)
    requires IsName(name) && NameLength(name + (">" + rest)) == |name|
    ensures Lex("</" + (name + (">" + rest))) == Prepend([EndTag(name)], Lex(rest))
  {
    hide ScanAttrs, NameLength, Distinct;
    var tail := ">" + rest;
    var s := "</" + (name + tail);
    assert s[2..] == name + tail && s[0] == '<' && s[1] == '/';
    assert s[2..2 + |name|] == name && s[2 + |name|..] == tail && tail[1..] == rest;
    assert s[2 + |name| + 1..] == rest;
  }

  /** A start tag without attributes, on its own line. */
  lemma OpenTagReads(name: string)
    requires IsName(name)
    ensures Reads("<" + name + ">\n", Some([StartTag(name, [], false)]))
  {
    hide Lex, IsName;
    forall rest
      ensures Lex("<" + name + ">\n" + rest) == Prepend([StartTag(name, [], false)], Lex(rest))
    {
      OpenTagThen(name, rest);
    }
  }

  lemma OpenTagThen(name: string, rest: string)
    requires IsName(name)
    ensures Lex("<" + name + ">\n" + rest) == Prepend([StartTag(name, [], false)], Lex(rest))
  {
    hide ScanAttrs, NameLength, Lex;
    var tail := ">\n" + rest;
    Glue("<" + name, ">\n", rest);
    Glue("<", name, tail);
    TagCloses(false, rest);
    NameIsScanned(name, tail);
    LexStartTag(name, tail);
    NewLine(rest);
  }

  // ---------- Reading sections, chapters, reports ----------

  lemma {:induction false} ContentConcat(a: seq<Written>, b: seq<Written>)
    ensures ContentTokens(a + b) == ContentTokens(a) + ContentTokens(b)
  {
    if a == [] {
      assert a + b == b;
    } else {
      assert (a + b)[1..] == a[1..] + b;
      ContentConcat(a[1..], b);
    }
  }

  lemma OneContent(w: Written)
    ensures ContentTokens([w]) == w.Tokens()
  {
    assert w.Tokens() + ContentTokens([w][1..]) == w.Tokens();
  }

  /** One more group of elements after what is read so far. */
  lemma ReadsMore(a: string, ws: seq<Written>, okA: bool, b: string, more: seq<Written>, okB: bool)
    requires Reads(a, if okA then Some(ContentTokens(ws)) else None)
    requires Reads(b, if okB then Some(ContentTokens(more)) else None)
    ensures Reads(a + b, if okA && okB then Some(ContentTokens(ws + more)) else None)
  {
    hide Reads;
    Compose(a, if okA then Some(ContentTokens(ws)) else None, b, if okB then Some(ContentTokens(more)) else None);
    ContentConcat(ws, more);
  }

  lemma NothingRead()
    ensures Reads("", Some(ContentTokens([])))
  {
    hide Reads;
    SpacesRead("");
  }

  lemma TagLineReads(level: nat, t: Tag)
    ensures Reads(TagLine(level, t),
                  if EntriesReadable(TagAttrs(t)) then Some(ContentTokens([TagElement(t)])) else None)
  {
    hide Reads, AttrsText, EntriesReadable, Attrs;
    var es := TagAttrs(t);
    assert IsName("tag") && NameKeys(es);
    StartTagReads("tag", es, true);
    OneContent(TagElement(t));
    SpacesThen(Indent(level), "<" + "tag" + " " + AttrsText(es) + "/>\n",
               if EntriesReadable(es) then Some(ContentTokens([TagElement(t)])) else None);
  }

  predicate TagsReadable(tags: seq<Tag>) {
    forall i :: 0 <= i < |tags| ==> EntriesReadable(TagAttrs(tags[i]))
  }

  lemma {:induction false} TagLinesRead(level: nat, tags: seq<Tag>)
    ensures Reads(TagLines(level, tags), if TagsReadable(tags) then Some(ContentTokens(TagElements(tags))) else None)
  {
    hide Reads, TagLine, EntriesReadable, ContentTokens, TagElement;
    if tags == [] {
      NothingRead();
      assert TagElements(tags) == [];
    } else {
      var init, last := tags[..|tags| - 1], tags[|tags| - 1];
      TagLinesRead(level, init);
      TagLineReads(level, last);
      ReadsMore(TagLines(level, init), TagElements(init), TagsReadable(init),
                TagLine(level, last), [TagElement(last)], EntriesReadable(TagAttrs(last)));
      assert TagElements(tags) == TagElements(init) + [TagElement(last)];
      assert tags == init + [last];
      assert TagsReadable(tags) <==> TagsReadable(init) && EntriesReadable(TagAttrs(last));
    }
  }

  /** A section: the start tag is closed in the right form, and the end tag matches. */
  lemma SectionReads(level: nat, name: string, es: seq<Entry>, tags: seq<Tag>)
    requires IsName(name) && NameKeys(es)
    ensures Reads(SectionText(level, name, es, tags),
                  if SectionReadable(es, tags) then Some(ContentTokens([SectionElement(name, es, tags)])) else None)
  {
    hide Reads, AttrsText, EntriesReadable, Attrs, TagLines, ContentTokens, IsName, EndLine;
    var empty := tags == [];
    var open := "<" + name + " " + AttrsText(es) + (if empty then "/>\n" else ">\n");
    var openRead := if EntriesReadable(es) then Some([StartTag(name, Attrs(es), empty)]) else None;
    StartTagReads(name, es, empty);
    SpacesThen(Indent(level), open, openRead);
    OneContent(SectionElement(name, es, tags));
    if empty {
      assert Indent(level) + open + "" == Indent(level) + open;
    } else {
      TagLinesRead(level + 1, tags);
      EndLineReads(level, name);
      var lines := TagLines(level + 1, tags);
      var linesRead := if TagsReadable(tags) then Some(ContentTokens(TagElements(tags))) else None;
      Compose(lines, linesRead, EndLine(level, name), Some([EndTag(name)]));
      Compose(Indent(level) + open, openRead, lines + EndLine(level, name), Join(linesRead, Some([EndTag(name)])));
      if SectionReadable(es, tags) {
        assert openRead.value + (linesRead.value + [EndTag(name)]) == openRead.value + linesRead.value + [EndTag(name)];
      }
    }
  }

  lemma EndLineReads(level: nat, name: string)
    requires IsName(name)
    ensures Reads(EndLine(level, name), Some([EndTag(name)]))
  {
    hide Reads;
    EndTagReads(name);
    SpacesThen(Indent(level), "</" + name + ">\n", Some([EndTag(name)]));
  }

  predicate Readable(shown: string -> bool, chapter: string, sec: Section) {
    SectionReadable(Printed(chapter == "format", shown, sec.entries), TagsOf(sec))
  }

  function ElementOf(shown: string -> bool, chapter: string, sec: Section): Written {
    SectionElement(sec.name, Printed(chapter == "format", shown, sec.entries), TagsOf(sec))
  }

  function SectionElements(shown: string -> bool, chapter: string, ss: seq<Section>): seq<Written> {
    seq(|ss|, i requires 0 <= i < |ss| => ElementOf(shown, chapter, ss[i]))
  }

  predicate AllReadable(shown: string -> bool, chapter: string, ss: seq<Section>) {
    forall i :: 0 <= i < |ss| ==> Readable(shown, chapter, ss[i])
  }

  predicate ValidSection(sec: Section) {
    IsName(sec.name) && NameKeys(sec.entries)
  }

  lemma PrintedNameKeys(fmt: bool, shown: string -> bool, es: seq<Entry>)
    requires NameKeys(es)
    ensures NameKeys(Printed(fmt, shown, es))
  {
    hide IsName;
    var p := Printed(fmt, shown, es);
    forall i | 0 <= i < |p|
      ensures IsName(p[i].key)
    {
      assert p[i] in es;
    }
  }

  lemma {:induction false} SectionsRead(level: nat, shown: string -> bool, chapter: string, ss: seq<Section>)
    requires forall i :: 0 <= i < |ss| ==> ValidSection(ss[i])
    ensures Reads(SectionsText(level, shown, chapter, ss),
                  if AllReadable(shown, chapter, ss) then Some(ContentTokens(SectionElements(shown, chapter, ss)))
                  else None)
  {
    hide Reads, SectionText, SectionReadable, SectionElement, ContentTokens, Printed, TagsOf, NameKeys, IsName;
    if ss == [] {
      NothingRead();
      assert SectionElements(shown, chapter, ss) == [];
    } else {
      var init, last := ss[..|ss| - 1], ss[|ss| - 1];
      var es := Printed(chapter == "format", shown, last.entries);
      SectionsRead(level, shown, chapter, init);
      assert ValidSection(last);
      PrintedNameKeys(chapter == "format", shown, last.entries);
      SectionReads(level, last.name, es, TagsOf(last));
      ReadsMore(SectionsText(level, shown, chapter, init), SectionElements(shown, chapter, init),
                AllReadable(shown, chapter, init),
                SectionText(level, last.name, es, TagsOf(last)), [ElementOf(shown, chapter, last)],
                Readable(shown, chapter, last));
      assert SectionElements(shown, chapter, ss) ==
             SectionElements(shown, chapter, init) + [ElementOf(shown, chapter, last)];
      assert ss == init + [last];
      assert AllReadable(shown, chapter, ss) <==> AllReadable(shown, chapter, init) && Readable(shown, chapter, last);
    }
  }

  /** The names that main and the show_ functions use are XML names. */
  predicate ValidChapter(ch: Chapter) {
    IsName(ch.name) && forall i :: 0 <= i < |ch.sections| ==> ValidSection(ch.sections[i])
  }

  predicate ValidCalls(r: Report) {
    forall i :: 0 <= i < |r| ==> ValidChapter(r[i])
  }

  function ChapterElements(shown: string -> bool, ch: Chapter): seq<Written> {
    var ws := SectionElements(shown, ch.name, ch.sections);
    if IsMulti(ch.name) then [Written(ch.name, [], false, ws)] else ws
  }

  function ReportElements(shown: string -> bool, r: Report): seq<Written> {
    if r == [] then [] else ReportElements(shown, r[..|r| - 1]) + ChapterElements(shown, r[|r| - 1])
  }

  /** Every value is made of legal characters and no section repeats a key. */
  predicate ReportReadable(shown: string -> bool, r: Report) {
    forall i :: 0 <= i < |r| ==> AllReadable(shown, r[i].name, r[i].sections)
  }

  lemma ChapterReads(shown: string -> bool, ch: Chapter)
    requires ValidChapter(ch)
    ensures Reads(ChapterText(shown, ch),
                  if AllReadable(shown, ch.name, ch.sections) then Some(ContentTokens(ChapterElements(shown, ch)))
                  else None)
  {
    hide Reads, SectionsText, AllReadable, ContentTokens, SectionElements, IsMulti, EndLine, IsName, ValidSection;
    var ok := AllReadable(shown, ch.name, ch.sections);
    if IsMulti(ch.name) {
      var open, body := Indent(1) + ("<" + ch.name + ">\n"), SectionsText(2, shown, ch.name, ch.sections);
      var ws := SectionElements(shown, ch.name, ch.sections);
      var bodyRead := if ok then Some(ContentTokens(ws)) else None;
      OpenTagReads(ch.name);
      SpacesThen(Indent(1), "<" + ch.name + ">\n", Some([StartTag(ch.name, [], false)]));
      SectionsRead(2, shown, ch.name, ch.sections);
      Compose(open, Some([StartTag(ch.name, [], false)]), body, bodyRead);
      EndLineReads(1, ch.name);
      Compose(open + body, Join(Some([StartTag(ch.name, [], false)]), bodyRead),
              EndLine(1, ch.name), Some([EndTag(ch.name)]));
      OneContent(Written(ch.name, [], false, ws));
    } else {
      SectionsRead(1, shown, ch.name, ch.sections);
    }
  }

  lemma {:induction false} BodyReads(shown: string -> bool, r: Report)
    requires ValidCalls(r)
    ensures Reads(BodyText(shown, r),
                  if ReportReadable(shown, r) then Some(ContentTokens(ReportElements(shown, r))) else None)
  {
    hide Reads, ChapterText, AllReadable, ContentTokens, ChapterElements, ValidChapter;
    if r == [] {
      NothingRead();
    } else {
      var init, last := r[..|r| - 1], r[|r| - 1];
      var okLast := AllReadable(shown, last.name, last.sections);
      BodyReads(shown, init);
      ChapterReads(shown, last);
      var line := if |r| > 1 then "\n" else "";
      SpacesThen(line, ChapterText(shown, last),
                 if okLast then Some(ContentTokens(ChapterElements(shown, last))) else None);
      ReadsMore(BodyText(shown, init), ReportElements(shown, init), ReportReadable(shown, init),
                line + ChapterText(shown, last), ChapterElements(shown, last), okLast);
      Glue(BodyText(shown, init), line, ChapterText(shown, last));
      assert r == init + [last];
      assert ReportReadable(shown, r) <==> ReportReadable(shown, init) && okLast;
    }
  }

  function ReportElement(shown: string -> bool, r: Report): Written {
    Written("ffprobe", [], false, ReportElements(shown, r))
  }

  lemma {:induction false} ReportIsValid(shown: string -> bool, r: Report)
    ensures forall w :: w in ReportElements(shown, r) ==> w.Valid()
  {
    hide Printed;
    if r != [] {
      ReportIsValid(shown, r[..|r| - 1]);
      var ch := r[|r| - 1];
      var ws := SectionElements(shown, ch.name, ch.sections);
      forall i | 0 <= i < |ws|
        ensures ws[i].Valid()
      {
        var tags := TagsOf(ch.sections[i]);
        assert forall k :: 0 <= k < |tags| ==> TagElements(tags)[k].Valid();
      }
    }
  }

  /** The XML output of a run is well formed exactly when no printed value has an illegal
      character and no section prints a key twice; it then denotes the report. */
  lemma ReportIsXml(shown: string -> bool, r: Report)
    requires ValidCalls(r)
    ensures Parse(ReportText(shown, r)) ==
            if ReportReadable(shown, r) then Some(ReportElement(shown, r).Tree()) else None
  {
    hide Reads, BodyText, ContentTokens, ReportElements, ValidChapter, AllReadable, Lex, ParseElement;
    var body, ok := BodyText(shown, r), ReportReadable(shown, r);
    var bodyRead := if ok then Some(ContentTokens(ReportElements(shown, r))) else None;
    var text := "\n" + ("<ffprobe>\n" + body + "</ffprobe>\n");
    assert IsName("ffprobe") && "<ffprobe>\n" == "<" + "ffprobe" + ">\n" && "</ffprobe>\n" == "</" + "ffprobe" + ">\n";
    OpenTagReads("ffprobe");
    EndTagReads("ffprobe");
    BodyReads(shown, r);
    var start, end := Some([StartTag("ffprobe", [], false)]), Some([EndTag("ffprobe")]);
    Compose("<ffprobe>\n", start, body, bodyRead);
    Compose("<ffprobe>\n" + body, Join(start, bodyRead), "</ffprobe>\n", end);
    var whole := Join(Join(start, bodyRead), end);
    SpacesThen("\n", "<ffprobe>\n" + body + "</ffprobe>\n", whole);
    WholeText(text, whole);
    assert XML_DECLARATION <= ReportText(shown, r) && ReportText(shown, r)[|XML_DECLARATION|..] == text;
    if ok {
      var w := ReportElement(shown, r);
      assert whole.value == w.Tokens() == w.Tokens() + [];
      ReportIsValid(shown, r);
      ParseInvertsTokens(w, []);
    }
  }

  lemma WholeText(text: string, r: Option<seq<Token>>)
    requires Reads(text, r)
    ensures Lex(text) == r
  {
    assert text + "" == text;
    assert Lex(text + "") == if r.Some? then Prepend(r.value, Lex("")) else None;
    if r.Some? { assert r.value + [] == r.value; }
  }

  /** Values come back unchanged exactly when they hold no tab or line break. */
  lemma ValueComesBack(v: string)
    ensures NormalText(v) == v <==> forall i :: 0 <= i < |v| ==> v[i] != '\t' && v[i] != '\n' && v[i] != '\r'
  {
    if NormalText(v) == v {
      forall i | 0 <= i < |v|
        ensures v[i] != '\t' && v[i] != '\n' && v[i] != '\r'
      {
        assert NormalText(v)[i] == Normal(v[i]);
      }
    }
  }
}
