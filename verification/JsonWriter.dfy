/** The JSON writer of ffprobe together with the writer_print_* calls in front of it: an
    object with counters, flags and an indent level that appends to its output. */
module JsonWriter {
  import opened Options
  import opened ProbeReport
  import opened JsonGrammar
  import opened JsonReport

  const JSON_ESCAPE: string := ['"', '\\', 8 as char, 12 as char, '\n', '\r', '\t']
  const JSON_SUBST: string := ['"', '\\', 'b', 'f', 'n', 'r', 't']

  /** strchr: the first position of c in s, |s| if there is none. */
  function Strchr(s: string, c: char): (k: nat)
    ensures k <= |s| && (k < |s| ==> s[k] == c) && forall i :: 0 <= i < k ==> s[i] != c
  {
    if s == "" || s[0] == c then 0 else 1 + Strchr(s[1..], c)
  }

  lemma {:induction false} EscapeConcat(a: string, b: string)
    ensures Escape(a + b) == Escape(a) + Escape(b)
  {
    hide EscapeChar;
    if a == "" {
      assert a + b == b;
    } else {
      assert (a + b)[1..] == a[1..] + b;
      EscapeConcat(a[1..], b);
    }
  }

  lemma EscapeNext(s: string, p: nat)
    requires p < |s|
    ensures Escape(s[..p + 1]) == Escape(s[..p]) + EscapeChar(s[p])
  {
    hide EscapeChar;
    EscapeConcat(s[..p], [s[p]]);
    assert s[..p + 1] == s[..p] + [s[p]];
    assert Escape([s[p]]) == EscapeChar(s[p]) + "";
  }

  lemma Backslashed(s: string, c: char)
    ensures s + "\\" + [c] == s + ['\\', c]
  {
  }

  lemma TableEntry(c: char)
    ensures var k := Strchr(JSON_ESCAPE, c);
      if k < |JSON_ESCAPE| then EscapeChar(c) == ['\\', JSON_SUBST[k]]
      else EscapeChar(c) == if c < ' ' then "\\u00" + [Digit(c as nat / 16), Digit(c as nat % 16)] else [c]
  {
    var k := Strchr(JSON_ESCAPE, c);
    if k == |JSON_ESCAPE| {
      assert JSON_ESCAPE[0] != c && JSON_ESCAPE[1] != c && JSON_ESCAPE[2] != c && JSON_ESCAPE[3] != c;
      assert JSON_ESCAPE[4] != c && JSON_ESCAPE[5] != c && JSON_ESCAPE[6] != c;
    }
  }

  /** json_escape_str. */
  method EscapeStr(src: string) returns (dst: string)
    ensures dst == Escape(src)
  {
    assert Escape("") == "";
    hide Escape, EscapeChar;
    dst := "";
    var p := 0;
    while p < |src|
      invariant 0 <= p <= |src| && dst == Escape(src[..p])
    {
      var c := src[p];
      var k := Strchr(JSON_ESCAPE, c);
      TableEntry(c);
      EscapeNext(src, p);
      if k < |JSON_ESCAPE| {
        Backslashed(dst, JSON_SUBST[k]);
        dst := dst + "\\" + [JSON_SUBST[k]];
      } else if c < ' ' {
        dst := dst + "\\u00" + [Digit(c as nat / 16), Digit(c as nat % 16)];
      } else {
        dst := dst + [c];
      }
      p := p + 1;
    }
    assert src[..|src|] == src;
  }

  class Writer {
    const compact: bool
    const shown: string -> bool
    var out: string
    var nbItem: nat
    var nbSection: nat
    var nbChapter: nat
    var isFmtChapter: bool
    var multipleEntries: bool
    var printPacketsAndFrames: bool
    var indentLevel: nat

    constructor (compact: bool, shown: string -> bool)
      ensures this.compact == compact && this.shown == shown
      ensures out == "" && indentLevel == 0 && !printPacketsAndFrames
    {
      this.compact, this.shown := compact, shown;
      out, nbItem, nbSection, nbChapter, indentLevel := "", 0, 0, 0, 0;
      isFmtChapter, multipleEntries, printPacketsAndFrames := false, false, false;
    }

    method PrintHeader()
      modifies `out, `indentLevel, `nbChapter
      ensures out == old(out) + "{" && indentLevel == old(indentLevel) + 1 && nbChapter == 0
    {
      out := out + "{";
      indentLevel := indentLevel + 1;
      nbChapter := 0;
    }

    method PrintFooter()
      requires indentLevel >= 1
      modifies `out, `indentLevel
      ensures out == old(out) + "\n}\n" && indentLevel == old(indentLevel) - 1
    {
      indentLevel := indentLevel - 1;
      out := out + "\n}\n";
    }

    /** The opening of a chapter that is an array. */
    method OpenArray(chapter: string)
      modifies `out
      ensures out == old(out) + (Indent(indentLevel) + Quote(chapter) + ": [\n")
    {
      hide Indent, Quote, Escape;
      ghost var was := out;
      out := out + Indent(indentLevel);
      var buf := EscapeStr(chapter);
      out := out + ("\"" + buf + "\": [\n");
      ChapterPiece(was, Indent(indentLevel), chapter);
    }

    method PrintChapterHeader(chapter: string)
      modifies `out, `indentLevel, `multipleEntries, `printPacketsAndFrames, `nbSection, `isFmtChapter
      ensures out == old(out) + (if nbChapter > 0 then "," else "") + "\n" +
        (if IsMulti(chapter) then Indent(old(indentLevel)) + Quote(chapter) + ": [\n" else "")
      ensures multipleEntries == IsMulti(chapter) && nbSection == 0 && isFmtChapter == (chapter == "format")
      ensures indentLevel == old(indentLevel) + if IsMulti(chapter) then 1 else 0
      ensures printPacketsAndFrames ==
        if IsMulti(chapter) then chapter == "packets_and_frames" else old(printPacketsAndFrames)
    {
      hide Indent, Quote;
      if nbChapter > 0 {
        out := out + ",";
      }
      out := out + "\n";
      multipleEntries := chapter == "packets" || chapter == "frames" || chapter == "packets_and_frames" ||
                         chapter == "streams" || chapter == "library_versions";
      assert multipleEntries == IsMulti(chapter);
      hide IsMulti;
      if multipleEntries {
        OpenArray(chapter);
        printPacketsAndFrames := chapter == "packets_and_frames";
        indentLevel := indentLevel + 1;
      }
      nbSection := 0;
      isFmtChapter := chapter == "format";
    }

    method PrintChapterFooter()
      requires multipleEntries ==> indentLevel >= 1
      modifies `out, `indentLevel, `nbChapter
      ensures out == old(out) + if multipleEntries then "\n" + Indent(indentLevel) + "]" else ""
      ensures indentLevel == old(indentLevel) - (if multipleEntries then 1 else 0) && nbChapter == old(nbChapter) + 1
    {
      if multipleEntries {
        out := out + "\n";
        indentLevel := indentLevel - 1;
        out := out + Indent(indentLevel);
        out := out + "]";
      }
      nbChapter := nbChapter + 1;
    }

    /** The opening of the object of a section, behind its name unless it is in an array. */
    method OpenObject(section: string)
      modifies `out
      ensures out == old(out) +
        ((if multipleEntries then Indent(indentLevel) else Indent(indentLevel) + Key(section)) +
         ("{" + StartEnd(compact)))
    {
      hide Indent, StartEnd;
      ghost var start := out;
      out := out + Indent(indentLevel);
      if !multipleEntries {
        out := out + ("\"" + section + "\": ");
      }
      out := out + ("{" + StartEnd(compact));
      OpenPiece(start, indentLevel, multipleEntries, section, "{" + StartEnd(compact));
    }

    /** The indent of a line, which the compact form leaves out. */
    method PrintPad()
      modifies `out
      ensures out == old(out) + Pad(compact, indentLevel)
    {
      if !compact {
        out := out + Indent(indentLevel);
      }
    }

    /** The type prefix of a section of packets and frames. */
    method TypePrefix(section: string)
      modifies `out
      ensures out == old(out) + Pad(compact, indentLevel) + (Key("type") + ("\"" + section + "\"") + Sep(compact))
    {
      hide Pad, Sep;
      PrintPad();
      out := out + ("\"type\": \"" + section + "\"" + Sep(compact));
      TypePiece(section, Sep(compact));
    }

    method PrintSectionHeader(section: string)
      modifies `out, `indentLevel, `nbItem
      ensures out == old(out) + (if nbSection > 0 then ",\n" else "") +
        SectionHead(compact, old(indentLevel), multipleEntries, printPacketsAndFrames, section)
      ensures indentLevel == old(indentLevel) + 1 && nbItem == 0
    {
      hide SectionHead, Indent, Key, StartEnd, Sep, Pad;
      if nbSection > 0 {
        out := out + ",\n";
      }
      ghost var start, level := out, indentLevel;
      OpenObject(section);
      indentLevel := indentLevel + 1;
      if printPacketsAndFrames {
        TypePrefix(section);
      }
      nbItem := 0;
      HeadPiece(start, compact, level, multipleEntries, printPacketsAndFrames, section);
    }

    method PrintSectionFooter()
      requires indentLevel >= 1
      modifies `out, `indentLevel, `nbSection
      ensures out == old(out) + SectionFoot(compact, indentLevel)
      ensures indentLevel == old(indentLevel) - 1 && nbSection == old(nbSection) + 1
    {
      ghost var was := out;
      out := out + StartEnd(compact);
      indentLevel := indentLevel - 1;
      PrintPad();
      out := out + "}";
      assert out == was + (StartEnd(compact) + Pad(compact, indentLevel) + "}");
      nbSection := nbSection + 1;
    }

    method PrintItemStr(key: string, value: string)
      modifies `out
      ensures out == old(out) + EntryText(StrEntry(key, value, false))
    {
      hide Escape;
      ghost var was := out;
      var buf := EscapeStr(key);
      out := out + ("\"" + buf + "\":");
      buf := EscapeStr(value);
      out := out + (" \"" + buf + "\"");
      ItemPieces(key, value);
      Glue(was, "\"" + Escape(key) + "\":", " \"" + Escape(value) + "\"");
    }

    /** writer_print_integer. */
    method PrintInteger(key: string, val: int)
      modifies `out, `nbItem
      ensures var e := IntEntry(key, val);
        if IsPrinted(isFmtChapter, shown, e) then
          out == old(out) + (if old(nbItem) > 0 then Sep(compact) else "") + Pad(compact, indentLevel) + EntryText(e) &&
          nbItem == old(nbItem) + 1
        else out == old(out) && nbItem == old(nbItem)
    {
      if !isFmtChapter || shown(key) {
        hide Escape, IntText, Pad, Sep;
        ghost var was := out;
        ghost var sep := if nbItem > 0 then Sep(compact) else "";
        if nbItem > 0 {
          out := out + Sep(compact);
        }
        PrintPad();
        var buf := EscapeStr(key);
        assert out == was + sep + Pad(compact, indentLevel);
        out := out + ("\"" + buf + "\": " + IntText(val));
        IntPiece(key, IntText(val));
        nbItem := nbItem + 1;
      }
    }

    /** writer_print_string; JSON does not display optional fields. */
    method PrintString(key: string, val: string, opt: bool)
      modifies `out, `nbItem
      ensures var e := StrEntry(key, val, opt);
        if IsPrinted(isFmtChapter, shown, e) then
          out == old(out) + (if old(nbItem) > 0 then Sep(compact) else "") + Pad(compact, indentLevel) + EntryText(e) &&
          nbItem == old(nbItem) + 1
        else out == old(out) && nbItem == old(nbItem)
    {
      hide Sep, Pad, EntryText;
      if opt {
        return;
      }
      if !isFmtChapter || shown(key) {
        if nbItem > 0 {
          out := out + Sep(compact);
        }
        PrintPad();
        PrintItemStr(key, val);
        nbItem := nbItem + 1;
      }
    }

    /** The loop of json_show_tags over the dictionary. */
    method PrintTags(tags: seq<Tag>)
      modifies `out
      ensures out == old(out) + EntriesText(compact, indentLevel, TagEntries(tags))
    {
      hide Pad, Sep, EntryText, EntriesText;
      ghost var was, es := out, TagEntries(tags);
      var isFirst := true;
      var i := 0;
      NoEntries(compact, indentLevel, es, was);
      while i < |tags|
        invariant 0 <= i <= |tags| && isFirst == (i == 0)
        invariant out == was + EntriesText(compact, indentLevel, es[..i])
      {
        ghost var before := EntriesText(compact, indentLevel, es[..i]);
        ghost var sep := if i > 0 then Sep(compact) else "";
        if isFirst {
          isFirst := false;
        } else {
          out := out + Sep(compact);
        }
        PrintPad();
        assert out == was + (before + sep + Pad(compact, indentLevel));
        PrintItemStr(tags[i].key, tags[i].text);
        EntriesTextStep(compact, indentLevel, es, i);
        Glue(was, before + sep + Pad(compact, indentLevel), EntryText(es[i]));
        i := i + 1;
      }
      assert es[..|es|] == es;
    }

    /** json_show_tags. */
    method ShowTags(dict: Option<seq<Tag>>)
      modifies `out, `indentLevel
      ensures out == old(out) + TagsText(compact, indentLevel, dict) && indentLevel == old(indentLevel)
    {
      hide Pad, Sep, StartEnd, EntriesText, TagEntries;
      hide TagsText, Key;
      ghost var was := out;
      if dict.None? {
        NoTags(was, compact, indentLevel);
        return;
      }
      ghost var level := indentLevel;
      out := out + Sep(compact);
      PrintPad();
      assert out == was + (Sep(compact) + Pad(compact, level));
      out := out + ("\"tags\": {" + StartEnd(compact));
      TagsPiece(was, Sep(compact) + Pad(compact, level), StartEnd(compact));
      ghost var head := Sep(compact) + Pad(compact, level) + Key("tags") + ("{" + StartEnd(compact));
      indentLevel := indentLevel + 1;
      PrintTags(dict.value);
      indentLevel := indentLevel - 1;
      out := out + StartEnd(compact);
      PrintPad();
      out := out + "}";
      CloseTags(was, compact, level, dict.value);
    }

    // ---------- The calls of main and probe_file ----------

    /** The entries of one section, in order. */
    method PrintEntries(es: seq<Entry>)
      requires nbItem == 0
      modifies `out, `nbItem
      ensures out == old(out) + EntriesText(compact, indentLevel, Printed(isFmtChapter, shown, es))
    {
      hide Sep, Pad, EntryText, SoFar, IsPrinted, Printed;
      ghost var was := out;
      var i := 0;
      NothingSoFar(was, compact, indentLevel, isFmtChapter, shown, es);
      while i < |es|
        invariant 0 <= i <= |es| && nbItem == |Printed(isFmtChapter, shown, es[..i])|
        invariant out == SoFar(was, compact, indentLevel, isFmtChapter, shown, es, i)
      {
        var e := es[i];
        EntriesStep(was, compact, indentLevel, isFmtChapter, shown, es, i);
        match e {
          case IntEntry(key, number) => PrintInteger(key, number);
          case StrEntry(key, value, optional) => PrintString(key, value, optional);
        }
        i := i + 1;
      }
      AllSoFar(was, compact, indentLevel, isFmtChapter, shown, es);
    }

    /** One section: its header, its entries, its tags if it shows any, its footer. */
    method PrintSection(chapter: string, sec: Section)
      requires multipleEntries == IsMulti(chapter) && isFmtChapter == (chapter == "format")
      modifies `out, `nbItem, `nbSection, `indentLevel
      ensures out == old(out) + (if old(nbSection) > 0 then ",\n" else "") +
        SectionText(compact, indentLevel, IsMulti(chapter), printPacketsAndFrames, sec.name,
                    Printed(chapter == "format", shown, sec.entries), sec.tags)
      ensures indentLevel == old(indentLevel) && nbSection == old(nbSection) + 1
    {
      hide SectionHead, EntriesText, TagsText, SectionFoot, Printed, IsMulti;
      ghost var start := out + if nbSection > 0 then ",\n" else "";
      ghost var head := SectionHead(compact, indentLevel, IsMulti(chapter), printPacketsAndFrames, sec.name);
      PrintSectionHeader(sec.name);
      PrintEntries(sec.entries);
      ShowTags(sec.tags);
      PrintSectionFooter();
      ghost var entries := EntriesText(compact, indentLevel + 1, Printed(chapter == "format", shown, sec.entries));
      Glue3(start, head, entries, TagsText(compact, indentLevel + 1, sec.tags));
      Glue(start, head + entries + TagsText(compact, indentLevel + 1, sec.tags), SectionFoot(compact, indentLevel));
    }

    /** The sections of one chapter, in order. */
    method PrintSections(chapter: string, ss: seq<Section>)
      requires nbSection == 0 && multipleEntries == IsMulti(chapter) && isFmtChapter == (chapter == "format")
      modifies `out, `nbItem, `nbSection, `indentLevel
      ensures out == old(out) + SectionsText(compact, indentLevel, printPacketsAndFrames, shown, chapter, ss)
      ensures indentLevel == old(indentLevel)
    {
      hide SectionText, SectionsText, IsMulti;
      ghost var was, level, typed := out, indentLevel, printPacketsAndFrames;
      var i := 0;
      assert was + SectionsText(compact, level, typed, shown, chapter, ss[..0]) == was by {
        NoSectionsText(compact, level, typed, shown, chapter, ss);
      }
      while i < |ss|
        invariant 0 <= i <= |ss| && nbSection == i && indentLevel == level
        invariant out == was + SectionsText(compact, level, typed, shown, chapter, ss[..i])
      {
        PrintSection(chapter, ss[i]);
        SectionsStep(compact, level, typed, shown, chapter, ss, i, was);
        i := i + 1;
      }
      assert ss[..|ss|] == ss;
    }

    /** One chapter: its header, its sections, its footer. */
    method PrintChapter(ch: Chapter)
      modifies `out, `nbItem, `nbSection, `nbChapter
      modifies `indentLevel, `multipleEntries, `printPacketsAndFrames, `isFmtChapter
      requires indentLevel == 1
      ensures out == old(out) + (if old(nbChapter) > 0 then "," else "") + "\n" +
        ChapterText(compact, printPacketsAndFrames, shown, ch)
      ensures nbChapter == old(nbChapter) + 1 && indentLevel == old(indentLevel)
      ensures printPacketsAndFrames ==
        if IsMulti(ch.name) then ch.name == "packets_and_frames" else old(printPacketsAndFrames)
    {
      hide SectionsText, Indent, Quote, IsMulti;
      ghost var start := out + (if nbChapter > 0 then "," else "") + "\n";
      PrintChapterHeader(ch.name);
      PrintSections(ch.name, ch.sections);
      PrintChapterFooter();
      ChapterGlue(start, Indent(1) + Quote(ch.name) + ": [\n",
                  SectionsText(compact, if IsMulti(ch.name) then 2 else 1, printPacketsAndFrames, shown,
                               ch.name, ch.sections),
                  Indent(1), IsMulti(ch.name));
    }

    /** A whole run: header, chapters, footer.  The text is JSON exactly when the report is
        readable, and then stands for the report. */
    method PrintReport(r: Report)
      requires out == "" && indentLevel == 0 && !printPacketsAndFrames
      modifies this
      ensures out == ReportText(compact, shown, r)
      ensures ValidCalls(r) ==>
        Parse(out) == if ReportReadable(shown, r) then Some(JObject(ReportMembers(shown, r))) else None
    {
      hide ChapterText, IsMulti, Parse, ReportReadable, ReportMembers, ValidCalls;
      PrintHeader();
      var i := 0;
      assert r[..0] == [];
      while i < |r|
        invariant 0 <= i <= |r| && nbChapter == i && indentLevel == 1
        invariant printPacketsAndFrames == TypedAfter(r[..i])
        invariant out == "{" + BodyText(compact, shown, r[..i])
      {
        PrintChapter(r[i]);
        BodyStep(compact, shown, r, i);
        i := i + 1;
      }
      assert r[..|r|] == r;
      PrintFooter();
      if ValidCalls(r) {
        ReportIsJson(compact, shown, r);
      }
    }
  }

  // ---------- The pieces the calls print, glued together ----------

  lemma ChapterPiece(start: string, indent: string, chapter: string)
    ensures start + indent + ("\"" + Escape(chapter) + "\": [\n") == start + (indent + Quote(chapter) + ": [\n")
  {
    hide Escape;
    var e := Escape(chapter);
    assert "\": [\n" == "\"" + ": [\n";
    Glue("\"" + e, "\"", ": [\n");
    assert Quote(chapter) == "\"" + e + "\"";
    hide Quote;
    Glue(start, indent, Quote(chapter) + ": [\n");
    Glue(indent, Quote(chapter), ": [\n");
  }

  lemma OpenPiece(start: string, level: nat, multi: bool, section: string, brace: string)
    ensures start + Indent(level) + (if multi then "" else Key(section)) + brace
         == start + ((if multi then Indent(level) else Indent(level) + Key(section)) + brace)
  {
    hide Indent, Key;
    if multi {
      Glue(start, Indent(level), brace);
      assert start + Indent(level) + "" == start + Indent(level);
    } else {
      Glue(start, Indent(level), Key(section));
      Glue(start, Indent(level) + Key(section), brace);
    }
  }

  lemma HeadPiece(start: string, compact: bool, level: nat, multi: bool, typed: bool, section: string)
    ensures var open := (if multi then Indent(level) else Indent(level) + Key(section)) + ("{" + StartEnd(compact));
      start + SectionHead(compact, level, multi, typed, section) ==
      if typed then
        start + open + Pad(compact, level + 1) + (Key("type") + ("\"" + section + "\"") + Sep(compact))
      else start + open
  {
    hide Indent, Key, StartEnd, Sep, Pad;
    var open := (if multi then Indent(level) else Indent(level) + Key(section)) + ("{" + StartEnd(compact));
    if typed {
      var pad, name := Pad(compact, level + 1), "\"" + section + "\"";
      Glue(start, open, pad);
      Glue(start, open + pad, Key("type") + name + Sep(compact));
      Glue3(open + pad, Key("type"), name, Sep(compact));
    }
  }

  lemma TypePiece(section: string, sep: string)
    ensures "\"type\": \"" + section + "\"" + sep == Key("type") + ("\"" + section + "\"") + sep
  {
    assert "\"type\": \"" == "\"type\": " + "\"";
    assert Key("type") == "\"type\": ";
    Glue("\"type\": ", "\"", section);
    Glue("\"type\": ", "\"" + section, "\"");
  }

  lemma ItemPieces(key: string, value: string)
    ensures ("\"" + Escape(key) + "\":") + (" \"" + Escape(value) + "\"") == EntryText(StrEntry(key, value, false))
  {
    hide Escape;
    var k, v := Escape(key), Escape(value);
    assert ("\"" + k + "\":") == ("\"" + k + "\"") + ":";
    assert (" \"" + v + "\"") == " " + ("\"" + v + "\"");
    Glue("\"" + k + "\"", ":", " " + ("\"" + v + "\""));
    Glue(":", " ", "\"" + v + "\"");
    assert ":" + " " == ": ";
    Glue("\"" + k + "\"", ": ", "\"" + v + "\"");
  }

  lemma IntPiece(key: string, number: string)
    ensures "\"" + Escape(key) + "\": " + number == Quote(key) + ": " + number
  {
    hide Escape;
    var k := Escape(key);
    assert "\": " == "\"" + ": ";
    Glue("\"" + k, "\"", ": ");
  }

  lemma TagsPiece(was: string, start: string, startEnd: string)
    ensures was + start + ("\"tags\": {" + startEnd) == was + (start + Key("tags") + ("{" + startEnd))
  {
    assert "\"tags\": {" == Key("tags") + "{";
    Glue(Key("tags"), "{", startEnd);
    Glue(start, Key("tags"), "{" + startEnd);
    Glue(was, start, Key("tags") + ("{" + startEnd));
  }

  lemma NoEntries(compact: bool, level: nat, es: seq<Entry>, head: string)
    ensures head == head + EntriesText(compact, level, es[..0])
  {
  }

  lemma NoTags(was: string, compact: bool, level: nat)
    ensures was + TagsText(compact, level, None) == was
  {
  }

  lemma CloseTags(was: string, compact: bool, level: nat, tags: seq<Tag>)
    ensures
      var head := Sep(compact) + Pad(compact, level) + Key("tags") + ("{" + StartEnd(compact));
      var entries := EntriesText(compact, level + 1, TagEntries(tags));
      was + head + entries + StartEnd(compact) + Pad(compact, level) + "}" ==
      was + TagsText(compact, level, Some(tags))
  {
    hide Sep, Pad, Key, StartEnd, EntriesText;
    var head := Sep(compact) + Pad(compact, level) + Key("tags") + ("{" + StartEnd(compact));
    var entries := EntriesText(compact, level + 1, TagEntries(tags));
    Glue(was, head, entries);
    Glue(was, head + entries, StartEnd(compact));
    Glue(was, head + entries + StartEnd(compact), Pad(compact, level));
    Glue(was, head + entries + StartEnd(compact) + Pad(compact, level), "}");
  }

  lemma EntriesTextStep(compact: bool, level: nat, es: seq<Entry>, i: nat)
    requires i < |es|
    ensures EntriesText(compact, level, es[..i + 1]) ==
      EntriesText(compact, level, es[..i]) + (if i > 0 then Sep(compact) else "") + Pad(compact, level) +
      EntryText(es[i])
  {
    assert es[..i + 1][..i] == es[..i];
  }


  lemma NoSectionsText(compact: bool, level: nat, typed: bool, shown: string -> bool, chapter: string, ss: seq<Section>)
    ensures SectionsText(compact, level, typed, shown, chapter, ss[..0]) == ""
  {
  }

  lemma SectionsStep(compact: bool, level: nat, typed: bool, shown: string -> bool, chapter: string, ss: seq<Section>,
                     i: nat, was: string)
    requires i < |ss|
    ensures was + SectionsText(compact, level, typed, shown, chapter, ss[..i]) + (if i > 0 then ",\n" else "") +
              SectionText(compact, level, IsMulti(chapter), typed, ss[i].name,
                          Printed(chapter == "format", shown, ss[i].entries), ss[i].tags)
            == was + SectionsText(compact, level, typed, shown, chapter, ss[..i + 1])
  {
    hide SectionText, Printed, IsMulti;
    assert ss[..i + 1][..i] == ss[..i];
    var before := SectionsText(compact, level, typed, shown, chapter, ss[..i]);
    var comma := if i > 0 then ",\n" else "";
    var text := SectionText(compact, level, IsMulti(chapter), typed, ss[i].name,
                            Printed(chapter == "format", shown, ss[i].entries), ss[i].tags);
    Glue(was, before, comma);
    Glue(was, before + comma, text);
  }

  /** The output when the printed ones of the first n entries follow was. */
  ghost function SoFar(was: string, compact: bool, level: nat, fmt: bool, shown: string -> bool,
                       es: seq<Entry>, n: nat): string
    requires n <= |es|
  {
    was + EntriesText(compact, level, Printed(fmt, shown, es[..n]))
  }

  lemma NothingSoFar(was: string, compact: bool, level: nat, fmt: bool, shown: string -> bool, es: seq<Entry>)
    ensures Printed(fmt, shown, es[..0]) == [] && SoFar(was, compact, level, fmt, shown, es, 0) == was
  {
    assert es[..0] == [] && EntriesText(compact, level, []) == "";
  }

  lemma AllSoFar(was: string, compact: bool, level: nat, fmt: bool, shown: string -> bool, es: seq<Entry>)
    ensures SoFar(was, compact, level, fmt, shown, es, |es|) ==
            was + EntriesText(compact, level, Printed(fmt, shown, es))
  {
    assert es[..|es|] == es;
  }

  lemma EntriesStep(was: string, compact: bool, level: nat, fmt: bool, shown: string -> bool, es: seq<Entry>, i: nat)
    requires i < |es|
    ensures var before, after := Printed(fmt, shown, es[..i]), Printed(fmt, shown, es[..i + 1]);
      var text := SoFar(was, compact, level, fmt, shown, es, i);
      var next := SoFar(was, compact, level, fmt, shown, es, i + 1);
      if IsPrinted(fmt, shown, es[i]) then
        |after| == |before| + 1 &&
        text + (if |before| > 0 then Sep(compact) else "") + Pad(compact, level) + EntryText(es[i]) == next
      else after == before && next == text
  {
    hide Sep, Pad, EntryText, EntriesText, IsPrinted;
    PrintedStep(fmt, shown, es, i);
    var before := Printed(fmt, shown, es[..i]);
    if IsPrinted(fmt, shown, es[i]) {
      EntriesTextGrows(compact, level, before, es[i]);
      var sep := if |before| > 0 then Sep(compact) else "";
      Glue(was, EntriesText(compact, level, before), sep);
      Glue(was, EntriesText(compact, level, before) + sep, Pad(compact, level));
      Glue(was, EntriesText(compact, level, before) + sep + Pad(compact, level), EntryText(es[i]));
    } else {
      assert before + [] == before;
    }
  }

  lemma EntriesTextGrows(compact: bool, level: nat, es: seq<Entry>, e: Entry)
    ensures EntriesText(compact, level, es + [e]) ==
      EntriesText(compact, level, es) + (if |es| > 0 then Sep(compact) else "") + Pad(compact, level) + EntryText(e)
  {
    assert (es + [e])[..|es|] == es;
  }

  lemma ChapterGlue(start: string, head: string, body: string, indent: string, multi: bool)
    ensures start + (if multi then head else "") + body + (if multi then "\n" + indent + "]" else "")
      == start + if multi then head + body + "\n" + indent + "]" else body
  {
    if multi {
      Glue(start, head, body);
      Glue(head + body, "\n" + indent, "]");
      Glue(head + body, "\n", indent);
      Glue(start, head + body, "\n" + indent + "]");
    }
  }

  lemma BodyStep(compact: bool, shown: string -> bool, r: Report, i: nat)
    requires i < |r|
    ensures "{" + BodyText(compact, shown, r[..i + 1]) ==
      "{" + BodyText(compact, shown, r[..i]) + (if i > 0 then "," else "") + "\n"
      + ChapterText(compact, TypedAfter(r[..i + 1]), shown, r[i])
    ensures TypedAfter(r[..i + 1]) ==
            if IsMulti(r[i].name) then r[i].name == "packets_and_frames" else TypedAfter(r[..i])
  {
    hide ChapterText, IsMulti;
    assert r[..i + 1][..i] == r[..i];
    var before := BodyText(compact, shown, r[..i]);
    var comma := if i > 0 then "," else "";
    var text := ChapterText(compact, TypedAfter(r[..i + 1]), shown, r[i]);
    Glue("{", before, comma);
    Glue("{", before + comma, "\n");
    Glue("{", before + comma + "\n", text);
  }
}
