/** The XML writer of ffprobe (without fully qualified names) together with the
    writer_print_* calls in front of it: an object with counters, flags and an indent
    level that appends to its output. */
module XmlWriter {
  import opened Options
  import opened ProbeReport
  import opened XmlGrammar
  import opened XmlReport

  lemma {:induction false} EscapeConcat(a: string, b: string)
    ensures Escape(a + b) == Escape(a) + Escape(b)
  {
    hide EscapeChar;
    if a == "" {
      assert a + b == b;
    } else {
      assert (a + b)[1..] == a[1..] + b;
      EscapeConcat(a[1..], b);
    }
  }

  lemma {:induction false} DigitsNeedNoEscape(n: nat)
    ensures Escape(NatText(n)) == NatText(n)
  {
    var d := n % 10;
    assert d in {0, 1, 2, 3, 4, 5, 6, 7, 8, 9};
    assert Escape([Digit(d)]) == [Digit(d)] + "";
    if n >= 10 {
      DigitsNeedNoEscape(n / 10);
      EscapeConcat(NatText(n / 10), [Digit(d)]);
    }
  }

  lemma EscapeNext(s: string, p: nat)
    requires p < |s|
    ensures Escape(s[..p + 1]) == Escape(s[..p]) + EscapeChar(s[p])
  {
    hide EscapeChar;
    EscapeConcat(s[..p], [s[p]]);
    assert s[..p + 1] == s[..p] + [s[p]];
    assert Escape([s[p]]) == EscapeChar(s[p]) + "";
  }

  /** Integers are printed raw: they need no escaping. */
  lemma NumberNeedsNoEscape(v: int)
    ensures Escape(IntText(v)) == IntText(v)
  {
    DigitsNeedNoEscape(if v < 0 then -v else v);
    if v < 0 {
      EscapeConcat("-", NatText(-v));
      assert Escape("-") == "-" + "";
    }
  }

  /** xml_escape_str. */
  method EscapeStr(src: string) returns (dst: string)
    ensures dst == Escape(src)
  {
    assert Escape("") == "";
    hide Escape;
    dst := "";
    var p := 0;
    while p < |src|
      invariant 0 <= p <= |src| && dst == Escape(src[..p])
    {
      EscapeNext(src, p);
      match src[p] {
        case '&' => dst := dst + "&amp;";
        case '<' => dst := dst + "&lt;";
        case '>' => dst := dst + "&gt;";
        case '"' => dst := dst + "&quot;";
        case '\'' => dst := dst + "&apos;";
        case _ => dst := dst + [src[p]];
      }
      p := p + 1;
    }
    assert src[..|src|] == src;
  }

  class Writer {
    const shown: string -> bool
    var out: string
    var nbItem: nat
    var nbChapter: nat
    var isFmtChapter: bool
    var withinTag: bool
    var multipleEntries: bool
    var indentLevel: nat

    constructor (shown: string -> bool)
      ensures this.shown == shown && out == "" && indentLevel == 0
    {
      this.shown := shown;
      out, nbItem, nbChapter, indentLevel := "", 0, 0, 0;
      isFmtChapter, withinTag, multipleEntries := false, false, false;
    }

    method PrintHeader()
      modifies `out, `indentLevel, `nbChapter
      ensures out == old(out) + XML_DECLARATION + "\n" + "<ffprobe>\n"
      ensures indentLevel == old(indentLevel) + 1 && nbChapter == 0
    {
      out := out + XML_DECLARATION + "\n";
      out := out + "<ffprobe>\n";
      indentLevel := indentLevel + 1;
      nbChapter := 0;
    }

    method PrintFooter()
      requires indentLevel >= 1
      modifies `out, `indentLevel
      ensures out == old(out) + "</ffprobe>\n" && indentLevel == old(indentLevel) - 1
    {
      indentLevel := indentLevel - 1;
      out := out + "</ffprobe>\n";
    }

    method PrintChapterHeader(chapter: string)
      modifies `out, `indentLevel, `multipleEntries, `isFmtChapter
      ensures out == old(out) + (if nbChapter > 0 then "\n" else "") +
        (if IsMulti(chapter) then Indent(old(indentLevel)) + ("<" + chapter + ">\n") else "")
      ensures multipleEntries == IsMulti(chapter) && isFmtChapter == (chapter == "format")
      ensures indentLevel == old(indentLevel) + if IsMulti(chapter) then 1 else 0
    {
      hide Indent;
      ghost var start := out + if nbChapter > 0 then "\n" else "";
      if nbChapter > 0 {
        out := out + "\n";
      }
      assert out == start;
      multipleEntries := chapter == "packets" || chapter == "frames" || chapter == "packets_and_frames" ||
                         chapter == "streams" || chapter == "library_versions";
      if multipleEntries {
        out := out + Indent(indentLevel);
        out := out + ("<" + chapter + ">\n");
        Glue(start, Indent(indentLevel), "<" + chapter + ">\n");
        indentLevel := indentLevel + 1;
      }
      isFmtChapter := chapter == "format";
    }

    method PrintChapterFooter(chapter: string)
      requires multipleEntries ==> indentLevel >= 1
      modifies `out, `indentLevel, `nbChapter
      ensures out == old(out) + if multipleEntries then EndLine(indentLevel, chapter) else ""
      ensures indentLevel == old(indentLevel) - (if multipleEntries then 1 else 0) && nbChapter == old(nbChapter) + 1
    {
      ghost var was := out;
      if multipleEntries {
        indentLevel := indentLevel - 1;
        out := out + Indent(indentLevel);
        out := out + ("</" + chapter + ">\n");
        Glue(was, Indent(indentLevel), "</" + chapter + ">\n");
      }
      nbChapter := nbChapter + 1;
    }

    method PrintSectionHeader(section: string)
      modifies `out, `withinTag, `nbItem
      ensures out == old(out) + Indent(indentLevel) + ("<" + section + " ") && withinTag && nbItem == 0
    {
      out := out + Indent(indentLevel);
      out := out + ("<" + section + " ");
      withinTag := true;
      nbItem := 0;
    }

    method PrintSectionFooter(section: string)
      modifies `out
      ensures out == old(out) + if withinTag then "/>\n" else EndLine(indentLevel, section)
    {
      ghost var was := out;
      if withinTag {
        out := out + "/>\n";
      } else {
        out := out + Indent(indentLevel);
        out := out + ("</" + section + ">\n");
        Glue(was, Indent(indentLevel), "</" + section + ">\n");
      }
    }

    /** writer_print_integer. */
    method PrintInteger(key: string, val: int)
      modifies `out, `nbItem
      ensures var e := IntEntry(key, val);
        if IsPrinted(isFmtChapter, shown, e) then
          out == old(out) + (if old(nbItem) > 0 then " " else "") + AttrText(e) && nbItem == old(nbItem) + 1
        else out == old(out) && nbItem == old(nbItem)
    {
      hide IntText, Escape;
      if !isFmtChapter || shown(key) {
        if nbItem > 0 {
          out := out + " ";
        }
        NumberNeedsNoEscape(val);
        out := out + (key + "=\"" + IntText(val) + "\"");
        nbItem := nbItem + 1;
      }
    }

    /** writer_print_string; XML does not display optional fields. */
    method PrintString(key: string, val: string, opt: bool)
      modifies `out, `nbItem
      ensures var e := StrEntry(key, val, opt);
        if IsPrinted(isFmtChapter, shown, e) then
          out == old(out) + (if old(nbItem) > 0 then " " else "") + AttrText(e) && nbItem == old(nbItem) + 1
        else out == old(out) && nbItem == old(nbItem)
    {
      hide Escape;
      if opt {
        return;
      }
      if !isFmtChapter || shown(key) {
        if nbItem > 0 {
          out := out + " ";
        }
        var buf := EscapeStr(val);
        out := out + (key + "=\"" + buf + "\"");
        nbItem := nbItem + 1;
      }
    }

    /** xml_show_tags: the first tag closes the start tag of the section. */
    method ShowTags(tags: seq<Tag>)
      requires withinTag
      modifies `out, `indentLevel, `withinTag
      ensures out == old(out) + (if tags == [] then "" else ">\n" + TagLines(indentLevel + 1, tags))
      ensures withinTag == (tags == []) && indentLevel == old(indentLevel)
    {
      hide Indent, Escape, TagLines, TagLine;
      ghost var was := out;
      var isFirst := true;
      indentLevel := indentLevel + 1;
      var i := 0;
      while i < |tags|
        invariant 0 <= i <= |tags| && isFirst == (i == 0) && withinTag == isFirst && indentLevel == old(indentLevel) + 1
        invariant out == was + if i == 0 then "" else ">\n" + TagLines(indentLevel, tags[..i])
      {
        ghost var before := if i == 0 then "" else ">\n" + TagLines(indentLevel, tags[..i]);
        if isFirst {
          out := out + ">\n";
          withinTag := false;
          isFirst := false;
        }
        ghost var open := out;
        assert open == was + (">\n" + TagLines(indentLevel, tags[..i])) by { NoTagLines(indentLevel, tags); }
        out := out + Indent(indentLevel);
        var buf := EscapeStr(tags[i].key);
        out := out + ("<tag key=\"" + buf + "\"");
        buf := EscapeStr(tags[i].text);
        out := out + (" value=\"" + buf + "\"/>\n");
        TagPieces(open, indentLevel, tags[i]);
        TagLinesStep(indentLevel, tags, i, was);
        i := i + 1;
      }
      assert tags[..|tags|] == tags;
      indentLevel := indentLevel - 1;
    }

    // ---------- The calls of main and probe_file ----------

    method PrintEntries(es: seq<Entry>)
      requires nbItem == 0
      modifies `out, `nbItem
      ensures out == old(out) + AttrsText(Printed(isFmtChapter, shown, es))
    {
      hide AttrText, SoFar, IsPrinted, Printed;
      ghost var was := out;
      var i := 0;
      NothingSoFar(was, isFmtChapter, shown, es);
      while i < |es|
        invariant 0 <= i <= |es| && nbItem == |Printed(isFmtChapter, shown, es[..i])|
        invariant out == SoFar(was, isFmtChapter, shown, es, i)
      {
        EntriesStep(isFmtChapter, shown, es, i, was);
        match es[i] {
          case IntEntry(key, number) => PrintInteger(key, number);
          case StrEntry(key, value, optional) => PrintString(key, value, optional);
        }
        i := i + 1;
      }
      AllSoFar(was, isFmtChapter, shown, es);
    }

    method PrintSection(chapter: string, sec: Section)
      requires isFmtChapter == (chapter == "format")
      modifies `out, `nbItem, `withinTag, `indentLevel
      ensures out == old(out) +
        SectionText(indentLevel, sec.name, Printed(chapter == "format", shown, sec.entries), TagsOf(sec))
      ensures indentLevel == old(indentLevel)
    {
      hide Indent, AttrsText, TagLines, Printed, EndLine;
      ghost var was := out;
      ghost var attrs := AttrsText(Printed(chapter == "format", shown, sec.entries));
      PrintSectionHeader(sec.name);
      PrintEntries(sec.entries);
      ShowTags(TagsOf(sec));
      PrintSectionFooter(sec.name);
      SectionPieces(was, Indent(indentLevel), sec.name, attrs, TagsOf(sec) == [],
                    TagLines(indentLevel + 1, TagsOf(sec)), EndLine(indentLevel, sec.name));
    }

    method PrintSections(chapter: string, ss: seq<Section>)
      requires isFmtChapter == (chapter == "format")
      modifies `out, `nbItem, `withinTag, `indentLevel
      ensures out == old(out) + SectionsText(indentLevel, shown, chapter, ss) && indentLevel == old(indentLevel)
    {
      hide SectionText, SectionsText;
      ghost var was, level := out, indentLevel;
      var i := 0;
      assert was + SectionsText(level, shown, chapter, ss[..0]) == was by { NoSectionsText(level, shown, chapter, ss); }
      while i < |ss|
        invariant 0 <= i <= |ss| && indentLevel == level
        invariant out == was + SectionsText(level, shown, chapter, ss[..i])
      {
        PrintSection(chapter, ss[i]);
        SectionsStep(level, shown, chapter, ss, i, was);
        i := i + 1;
      }
      assert ss[..|ss|] == ss;
    }

    method PrintChapter(ch: Chapter)
      requires indentLevel == 1
      modifies `out, `nbItem, `nbChapter, `indentLevel, `multipleEntries, `isFmtChapter, `withinTag
      ensures out == old(out) + (if old(nbChapter) > 0 then "\n" else "") + ChapterText(shown, ch)
      ensures nbChapter == old(nbChapter) + 1 && indentLevel == old(indentLevel)
    {
      hide SectionsText, Indent, IsMulti, EndLine;
      ghost var start := out + if nbChapter > 0 then "\n" else "";
      PrintChapterHeader(ch.name);
      PrintSections(ch.name, ch.sections);
      PrintChapterFooter(ch.name);
      ChapterPieces(start, Indent(1) + ("<" + ch.name + ">\n"),
                    SectionsText(if IsMulti(ch.name) then 2 else 1, shown, ch.name, ch.sections),
                    EndLine(1, ch.name), IsMulti(ch.name));
    }

    /** A whole run.  The text is well formed exactly when the report is readable, and
        then stands for the report. */
    method PrintReport(r: Report)
      requires out == "" && indentLevel == 0
      modifies this
      ensures out == ReportText(shown, r)
      ensures ValidCalls(r) ==>
        Parse(out) == if ReportReadable(shown, r) then Some(ReportElement(shown, r).Tree()) else None
    {
      hide ChapterText, Parse, ReportReadable, ReportElement, ValidCalls;
      PrintHeader();
      ghost var head := out;
      var i := 0;
      assert r[..0] == [];
      while i < |r|
        invariant 0 <= i <= |r| && nbChapter == i && indentLevel == 1
        invariant out == head + BodyText(shown, r[..i])
      {
        PrintChapter(r[i]);
        BodyStep(head, shown, r, i);
        i := i + 1;
      }
      assert r[..|r|] == r;
      PrintFooter();
      ReportPieces(XML_DECLARATION, BodyText(shown, r));
      if ValidCalls(r) {
        ReportIsXml(shown, r);
      }
    }
  }

  // ---------- The pieces the calls print, glued together ----------

  lemma NoTagLines(level: nat, tags: seq<Tag>)
    ensures ">\n" + TagLines(level, tags[..0]) == ">\n"
  {
  }

  lemma NoSectionsText(level: nat, shown: string -> bool, chapter: string, ss: seq<Section>)
    ensures SectionsText(level, shown, chapter, ss[..0]) == ""
  {
  }

  lemma TagPieces(open: string, level: nat, t: Tag)
    ensures open + Indent(level) + ("<tag key=\"" + Escape(t.key) + "\"") + (" value=\"" + Escape(t.text) + "\"/>\n")
         == open + TagLine(level, t)
  {
    hide Indent, Escape;
    var k, v := Escape(t.key), Escape(t.text);
    var first, second := "key=\"" + k + "\"", "value=\"" + v + "\"";
    assert AttrsText(TagAttrs(t)) == first + " " + second by {
      var es := TagAttrs(t);
      assert es[..1][..0] == [] && es[..1] == [es[0]];
      assert AttrsText([es[0]]) == "" + "" + AttrText(es[0]) == first;
    }
    assert "<tag key=\"" + k + "\"" == "<tag " + first;
    assert " value=\"" + v + "\"/>\n" == " " + second + "/>\n";
    var line := "<" + "tag" + " " + (first + " " + second) + "/>\n";
    assert "<" + "tag" + " " == "<tag ";
    Glue("<tag ", first + " " + second, "/>\n");
    assert ("<tag " + first) + (" " + second + "/>\n") == line by {
      Glue3("<tag " + first, " ", second, "/>\n");
      Glue("<tag " + first, " ", second);
      Glue("<tag ", first, " " + second);
      Glue(first, " ", second);
    }
    Glue(open + Indent(level), "<tag " + first, " " + second + "/>\n");
    Glue(open, Indent(level), line);
  }

  lemma TagLinesStep(level: nat, tags: seq<Tag>, i: nat, was: string)
    requires i < |tags|
    ensures was + (">\n" + TagLines(level, tags[..i])) + TagLine(level, tags[i])
         == was + (">\n" + TagLines(level, tags[..i + 1]))
  {
    hide TagLine;
    assert tags[..i + 1][..i] == tags[..i];
    Glue(was, ">\n" + TagLines(level, tags[..i]), TagLine(level, tags[i]));
    Glue(">\n", TagLines(level, tags[..i]), TagLine(level, tags[i]));
  }

  /** The output when the printed ones of the first n entries follow was. */
  ghost function SoFar(was: string, fmt: bool, shown: string -> bool, es: seq<Entry>, n: nat): string
    requires n <= |es|
  {
    was + AttrsText(Printed(fmt, shown, es[..n]))
  }

  lemma NothingSoFar(was: string, fmt: bool, shown: string -> bool, es: seq<Entry>)
    ensures Printed(fmt, shown, es[..0]) == [] && SoFar(was, fmt, shown, es, 0) == was
  {
    assert es[..0] == [] && AttrsText([]) == "";
  }

  lemma AllSoFar(was: string, fmt: bool, shown: string -> bool, es: seq<Entry>)
    ensures SoFar(was, fmt, shown, es, |es|) == was + AttrsText(Printed(fmt, shown, es))
  {
    assert es[..|es|] == es;
  }

  lemma EntriesStep(fmt: bool, shown: string -> bool, es: seq<Entry>, i: nat, was: string)
    requires i < |es|
    ensures var before, after := Printed(fmt, shown, es[..i]), Printed(fmt, shown, es[..i + 1]);
      if IsPrinted(fmt, shown, es[i]) then
        |after| == |before| + 1 &&
        SoFar(was, fmt, shown, es, i) + (if |before| > 0 then " " else "") + AttrText(es[i]) ==
        SoFar(was, fmt, shown, es, i + 1)
      else after == before && SoFar(was, fmt, shown, es, i + 1) == SoFar(was, fmt, shown, es, i)
  {
    hide AttrText, IsPrinted;
    PrintedStep(fmt, shown, es, i);
    var before := Printed(fmt, shown, es[..i]);
    if IsPrinted(fmt, shown, es[i]) {
      var after := before + [es[i]];
      assert after[..|after| - 1] == before;
      var sep := if |before| > 0 then " " else "";
      Glue(was, AttrsText(before), sep);
      Glue(was, AttrsText(before) + sep, AttrText(es[i]));
    } else {
      assert before + [] == before;
    }
  }

  lemma SectionPieces(was: string, indent: string, name: string, attrs: string, empty: bool, lines: string, end: string)
    ensures was + indent + ("<" + name + " ") + attrs +
            (if empty then "" else ">\n" + lines) + (if empty then "/>\n" else end)
         == was + (indent + ("<" + name + " " + attrs + (if empty then "/>\n" else ">\n")) +
                   (if empty then "" else lines + end))
  {
    var open := "<" + name + " ";
    Glue(was + indent, open, attrs);
    if empty {
      Glue(was + indent, open + attrs, "/>\n");
      Glue(was, indent, open + attrs + "/>\n");
    } else {
      Glue(was + indent, open + attrs, ">\n" + lines);
      Glue(open + attrs, ">\n", lines);
      Glue(was, indent, open + attrs + ">\n" + lines);
      Glue(indent, open + attrs + ">\n", lines);
      Glue(was, indent + (open + attrs + ">\n") + lines, end);
      Glue(indent + (open + attrs + ">\n"), lines, end);
    }
  }

  lemma SectionsStep(level: nat, shown: string -> bool, chapter: string, ss: seq<Section>, i: nat, was: string)
    requires i < |ss|
    ensures was + SectionsText(level, shown, chapter, ss[..i]) +
              SectionText(level, ss[i].name, Printed(chapter == "format", shown, ss[i].entries), TagsOf(ss[i]))
            == was + SectionsText(level, shown, chapter, ss[..i + 1])
  {
    hide SectionText, Printed, TagsOf;
    assert ss[..i + 1][..i] == ss[..i];
    Glue(was, SectionsText(level, shown, chapter, ss[..i]),
         SectionText(level, ss[i].name, Printed(chapter == "format", shown, ss[i].entries), TagsOf(ss[i])));
  }

  lemma ChapterPieces(start: string, head: string, body: string, end: string, multi: bool)
    ensures start + (if multi then head else "") + body + (if multi then end else "")
         == start + if multi then head + body + end else body
  {
    if multi {
      Glue(start, head, body);
      Glue(start, head + body, end);
    }
  }

  lemma BodyStep(head: string, shown: string -> bool, r: Report, i: nat)
    requires i < |r|
    ensures head + BodyText(shown, r[..i]) + (if i > 0 then "\n" else "") + ChapterText(shown, r[i])
         == head + BodyText(shown, r[..i + 1])
  {
    hide ChapterText;
    assert r[..i + 1][..i] == r[..i];
    var line := if i > 0 then "\n" else "";
    Glue(head, BodyText(shown, r[..i]), line);
    Glue(head, BodyText(shown, r[..i]) + line, ChapterText(shown, r[i]));
  }

  lemma ReportPieces(declaration: string, body: string)
    ensures "" + declaration + "\n" + "<ffprobe>\n" + body + "</ffprobe>\n"
         == declaration + ("\n" + ("<ffprobe>\n" + body + "</ffprobe>\n"))
  {
    assert "" + declaration == declaration;
    Glue(declaration, "\n", "<ffprobe>\n");
    Glue(declaration, "\n" + "<ffprobe>\n", body);
    Glue("\n", "<ffprobe>\n", body);
    Glue(declaration, "\n" + ("<ffprobe>\n" + body), "</ffprobe>\n");
    Glue("\n", "<ffprobe>\n" + body, "</ffprobe>\n");
  }
}
