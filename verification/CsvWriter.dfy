/** The compact writer of ffprobe as the csv format sets it up (item separator ',', no
    keys, csv escaping), with the writer_print_* calls in front of it. */
module CsvWriter {
  import opened Options
  import opened ProbeReport
  import opened CsvReport

  lemma {:induction false} DoubledConcat(a: string, b: string)
    ensures Doubled(a + b) == Doubled(a) + Doubled(b)
  {
    if a == "" {
      assert a + b == b;
    } else {
      assert (a + b)[1..] == a[1..] + b;
      DoubledConcat(a[1..], b);
      Glue(if a[0] == '"' then "\"\"" else [a[0]], Doubled(a[1..]), Doubled(b));
    }
  }

  /** csv_escape_str: one pass decides about quoting, the next doubles the marks. */
  method EscapeStr(src: string) returns (dst: string)
    ensures dst == Escape(src)
  {
    var quote := false;
    var p := 0;
    while p < |src|
      invariant 0 <= p <= |src| && quote == exists i :: 0 <= i < p && IsSpecial(src[i])
    {
      if src[p] == '"' || src[p] == ',' || src[p] == '\n' || src[p] == '\r' {
        quote := true;
      }
      p := p + 1;
    }
    assert quote == NeedsQuote(src);
    var body := "";
    p := 0;
    while p < |src|
      invariant 0 <= p <= |src| && body == Doubled(src[..p])
    {
      DoubledConcat(src[..p], [src[p]]);
      assert src[..p + 1] == src[..p] + [src[p]];
      assert [src[p]][1..] == "";
      if src[p] == '"' {
        body := body + "\"";
      }
      body := body + [src[p]];
      p := p + 1;
    }
    assert src[..|src|] == src;
    dst := if quote then "\"" + (body + "\"") else body;
  }

  lemma {:induction false} DigitsArePlain(n: nat)
    ensures !NeedsQuote(NatText(n))
  {
    var d := n % 10;
    assert d in {0, 1, 2, 3, 4, 5, 6, 7, 8, 9};
    if n >= 10 { DigitsArePlain(n / 10); }
  }

  /** Integers are printed raw: they need no quoting. */
  lemma NumberIsPlain(v: int)
    ensures Escape(IntText(v)) == IntText(v)
  {
    DigitsArePlain(if v < 0 then -v else v);
    assert !NeedsQuote(IntText(v)) by {
      hide NatText;
      forall i | 0 <= i < |IntText(v)| ensures !IsSpecial(IntText(v)[i]) {
        if v < 0 && i > 0 { assert IntText(v)[i] == NatText(-v)[i - 1]; }
      }
    }
    PlainReads(IntText(v), "");
  }

  class Writer {
    const shown: string -> bool
    var out: string
    var nbItem: nat
    var isFmtChapter: bool

    constructor (shown: string -> bool)
      ensures this.shown == shown && out == ""
    {
      this.shown := shown;
      out, nbItem, isFmtChapter := "", 0, false;
    }

    method PrintSectionHeader(section: string)
      modifies `out, `nbItem
      ensures out == old(out) + (section + ",") && nbItem == 0
    {
      out := out + (section + ",");
      nbItem := 0;
    }

    method PrintSectionFooter()
      modifies `out
      ensures out == old(out) + "\n"
    {
      out := out + "\n";
    }

    /** writer_print_integer. */
    method PrintInteger(key: string, val: int)
      modifies `out, `nbItem
      ensures if !isFmtChapter || shown(key) then
          out == old(out) + (if old(nbItem) > 0 then "," else "") + Escape(IntText(val)) && nbItem == old(nbItem) + 1
        else out == old(out) && nbItem == old(nbItem)
    {
      hide IntText, Escape;
      if !isFmtChapter || shown(key) {
        if nbItem > 0 {
          out := out + ",";
        }
        NumberIsPlain(val);
        out := out + IntText(val);
        nbItem := nbItem + 1;
      }
    }

    /** writer_print_string; optional fields are displayed. */
    method PrintString(key: string, val: string)
      modifies `out, `nbItem
      ensures if !isFmtChapter || shown(key) then
          out == old(out) + (if old(nbItem) > 0 then "," else "") + Escape(val) && nbItem == old(nbItem) + 1
        else out == old(out) && nbItem == old(nbItem)
    {
      hide Escape;
      if !isFmtChapter || shown(key) {
        if nbItem > 0 {
          out := out + ",";
        }
        var buf := EscapeStr(val);
        out := out + buf;
        nbItem := nbItem + 1;
      }
    }

    /** compact_show_tags: it reads nb_item but never advances it. */
    method ShowTags(tags: seq<string>)
      modifies `out
      ensures out == old(out) + TagsText(nbItem > 0, tags)
    {
      hide Escape;
      ghost var was := out;
      var i := 0;
      assert tags[..0] == [];
      while i < |tags|
        invariant 0 <= i <= |tags| && out == was + TagsText(nbItem > 0, tags[..i])
      {
        ghost var before := TagsText(nbItem > 0, tags[..i]);
        ghost var comma := if nbItem > 0 then "," else "";
        if nbItem > 0 {
          out := out + ",";
        }
        var buf := EscapeStr(tags[i]);
        out := out + buf;
        assert tags[..i + 1][..i] == tags[..i];
        Glue(was, before, comma);
        Glue(was, before + comma, Escape(tags[i]));
        i := i + 1;
      }
      assert tags[..|tags|] == tags;
    }

    method PrintEntries(es: seq<Entry>)
      requires nbItem == 0
      modifies `out, `nbItem
      ensures out == old(out) + FieldsText(Fields(isFmtChapter, shown, es))
      ensures nbItem == |Fields(isFmtChapter, shown, es)|
    {
      hide Escape, FieldsText;
      ghost var was := out;
      var i := 0;
      assert es[..0] == [] && Fields(isFmtChapter, shown, es[..0]) == [];
      assert was + FieldsText([]) == was by { NoFields(was); }
      while i < |es|
        invariant 0 <= i <= |es| && nbItem == |Fields(isFmtChapter, shown, es[..i])|
        invariant out == was + FieldsText(Fields(isFmtChapter, shown, es[..i]))
      {
        FieldsStep(isFmtChapter, shown, es, i, was);
        match es[i] {
          case IntEntry(key, number) => PrintInteger(key, number);
          case StrEntry(key, text, optional) => PrintString(key, text);
        }
        i := i + 1;
      }
      assert es[..|es|] == es;
    }

    /** The sections of a run, each announced by its chapter: the text reads back as one
        record per section exactly when every section is separated. */
    method PrintFile(ss: seq<Shown>)
      requires out == ""
      modifies this
      ensures out == FileText(shown, ss)
      ensures PlainNames(ss) ==> (ReadFile(out) == Some(Records(shown, ss)) <==> AllSeparated(shown, ss))
    {
      hide FieldsText, Fields, TagsText, AllSeparated, PlainNames, Records, ReadFile;
      var i := 0;
      assert ss[..0] == [];
      while i < |ss|
        invariant 0 <= i <= |ss| && out == FileText(shown, ss[..i])
      {
        var sec := ss[i].section;
        isFmtChapter := ss[i].chapter == "format";
        ghost var before := out;
        PrintSectionHeader(sec.name);
        PrintEntries(sec.entries);
        ShowTags(TagFields(sec));
        PrintSectionFooter();
        ghost var fields := Fields(isFmtChapter, shown, sec.entries);
        LinePieces(before, sec.name, FieldsText(fields), TagsText(fields != [], TagFields(sec)));
        assert ss[..i + 1][..i] == ss[..i];
        i := i + 1;
      }
      assert ss[..|ss|] == ss;
      if PlainNames(ss) {
        FileIsCsv(shown, ss);
      }
    }
  }

  lemma NoFields(was: string)
    ensures was + FieldsText([]) == was
  {
  }

  lemma FieldsStep(fmt: bool, shown: string -> bool, es: seq<Entry>, i: nat, was: string)
    requires i < |es|
    ensures var before, after := Fields(fmt, shown, es[..i]), Fields(fmt, shown, es[..i + 1]);
      if !fmt || shown(es[i].key) then
        |after| == |before| + 1 &&
        was + FieldsText(before) + (if |before| > 0 then "," else "") + Escape(ValueText(es[i])) ==
        was + FieldsText(after)
      else after == before
  {
    hide Escape, ValueText, FieldsText, Fields;
    FieldsGrow(fmt, shown, es, i);
    var before := Fields(fmt, shown, es[..i]);
    if !fmt || shown(es[i].key) {
      FieldsTextGrows(before, ValueText(es[i]));
      var comma := if |before| > 0 then "," else "";
      Glue(was, FieldsText(before), comma);
      Glue(was, FieldsText(before) + comma, Escape(ValueText(es[i])));
    }
  }

  lemma FieldsGrow(fmt: bool, shown: string -> bool, es: seq<Entry>, i: nat)
    requires i < |es|
    ensures Fields(fmt, shown, es[..i + 1]) ==
            Fields(fmt, shown, es[..i]) + if !fmt || shown(es[i].key) then [ValueText(es[i])] else []
  {
    assert es[..i + 1][..i] == es[..i];
  }

  lemma FieldsTextGrows(fields: seq<string>, field: string)
    ensures FieldsText(fields + [field]) ==
            FieldsText(fields) + (if |fields| > 0 then "," else "") + Escape(field)
  {
    hide Escape;
    assert (fields + [field])[..|fields|] == fields;
  }

  lemma LinePieces(before: string, name: string, fields: string, tags: string)
    ensures before + (name + ",") + fields + tags + "\n" == before + (name + "," + fields + tags + "\n")
  {
    Glue3(before, name + ",", fields, tags);
    Glue(before, name + "," + fields + tags, "\n");
  }
}
