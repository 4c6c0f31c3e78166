/** ffprobe's CSV output (the compact writer with item_sep=, nokey=1 escape=csv) and a
    reader by rules 4 to 7 of section 2 of RFC 4180, with a bare line feed as line break. */
module CsvReport {
  import opened Options
  import opened ProbeReport

  // ---------- The reader ----------

  datatype Scan = Scan(text: string, rest: string)

  function ConsScan(c: char, r: Option<Scan>): Option<Scan> {
    match r
    case Some(scan) => Some(Scan([c] + scan.text, scan.rest))
    case None => None
  }

  /** A field without quotation marks, up to a comma or the end of the line. */
  function ReadPlain(s: string): (r: Option<Scan>)
    ensures r.Some? ==> |r.value.rest| <= |s|
  {
    if s == "" || s[0] == ',' || s[0] == '\n' then Some(Scan("", s))
    else if s[0] == '"' || s[0] == '\r' then None
    else ConsScan(s[0], ReadPlain(s[1..]))
  }

  /** A field after its opening quotation mark; two marks stand for one. */
  function ReadQuoted(s: string): (r: Option<Scan>)
    ensures r.Some? ==> |r.value.rest| <= |s|
  {
    if s == "" then None
    else if s[0] == '"' then
      if |s| > 1 && s[1] == '"' then ConsScan('"', ReadQuoted(s[2..])) else Some(Scan("", s[1..]))
    else ConsScan(s[0], ReadQuoted(s[1..]))
  }

  function ReadField(s: string): (r: Option<Scan>)
    ensures r.Some? ==> |r.value.rest| <= |s|
  {
    if s != "" && s[0] == '"' then ReadQuoted(s[1..]) else ReadPlain(s)
  }

  datatype Line = Line(fields: seq<string>, rest: string)

  function ReadRecord(s: string): (r: Option<Line>)
    ensures r.Some? ==> |r.value.rest| < |s|
    decreases |s|
  {
    match ReadField(s)
    case None => None
    case Some(scan) =>
      if "\n" <= scan.rest then Some(Line([scan.text], scan.rest[1..]))
      else if "," <= scan.rest then
        match ReadRecord(scan.rest[1..])
        case Some(line) => Some(Line([scan.text] + line.fields, line.rest))
        case None => None
      else None
  }

  function ReadFile(s: string): Option<seq<seq<string>>>
    decreases |s|
  {
    if s == "" then Some([])
    else
      match ReadRecord(s)
      case None => None
      case Some(line) =>
        match ReadFile(line.rest)
        case Some(records) => Some([line.fields] + records)
        case None => None
  }

  // ---------- The text ----------

  predicate IsSpecial(c: char) {
    c == '"' || c == ',' || c == '\n' || c == '\r'
  }

  predicate NeedsQuote(s: string) {
    exists i :: 0 <= i < |s| && IsSpecial(s[i])
  }

  function Doubled(s: string): string {
    if s == "" then "" else (if s[0] == '"' then "\"\"" else [s[0]]) + Doubled(s[1..])
  }

  function Escape(s: string): string {
    if NeedsQuote(s) then "\"" + (Doubled(s) + "\"") else Doubled(s)
  }

  /** The values of the printed entries; CSV output displays optional fields. */
  function Fields(fmt: bool, shown: string -> bool, es: seq<Entry>): seq<string> {
    if es == [] then []
    else
      var last := es[|es| - 1];
      Fields(fmt, shown, es[..|es| - 1]) + (if !fmt || shown(last.key) then [ValueText(last)] else [])
  }

  function TagFields(sec: Section): seq<string> {
    if sec.tags.None? then []
    else seq(|sec.tags.value|, i requires 0 <= i < |sec.tags.value| => sec.tags.value[i].text)
  }

  function FieldsText(fields: seq<string>): string {
    if fields == [] then ""
    else
      FieldsText(fields[..|fields| - 1]) + (if |fields| > 1 then "," else "") + Escape(fields[|fields| - 1])
  }

  /** Tag values are separated from what precedes only when the section has entries. */
  function TagsText(separate: bool, tags: seq<string>): string {
    if tags == [] then ""
    else TagsText(separate, tags[..|tags| - 1]) + (if separate then "," else "") + Escape(tags[|tags| - 1])
  }

  function SectionText(name: string, fields: seq<string>, tags: seq<string>): string {
    name + "," + FieldsText(fields) + TagsText(fields != [], tags) + "\n"
  }

  // ---------- Fields read back ----------

  /** What may follow a field. */
  predicate EndsField(rest: string) {
    rest != "" && (rest[0] == ',' || rest[0] == '\n')
  }

  lemma {:induction false} PlainReads(s: string, rest: string)
    requires !NeedsQuote(s)
    ensures Escape(s) == s
    ensures var r := ReadPlain(rest);
      ReadPlain(s + rest) == if r.Some? then Some(Scan(s + r.value.text, r.value.rest)) else None
  {
    if s == "" {
      assert s + rest == rest;
      var r := ReadPlain(rest);
      if r.Some? { assert s + r.value.text == r.value.text; }
    } else {
      assert !IsSpecial(s[0]);
      assert !NeedsQuote(s[1..]) by {
        forall i | 0 <= i < |s| - 1 ensures !IsSpecial(s[1..][i]) { assert s[1..][i] == s[i + 1]; }
      }
      PlainReads(s[1..], rest);
      assert (s + rest)[0] == s[0] && (s + rest)[1..] == s[1..] + rest;
      assert s == [s[0]] + s[1..];
      var r := ReadPlain(rest);
      if r.Some? { assert [s[0]] + (s[1..] + r.value.text) == s + r.value.text; }
    }
  }

  /** After the closing mark either another mark follows, and the field goes on, or the
      field is over. */
  function AfterMark(rest: string): Option<Scan> {
    if "\"" <= rest then ConsScan('"', ReadQuoted(rest[1..])) else Some(Scan("", rest))
  }

  lemma QuotedStep(c: char, more: string)
    ensures ReadQuoted((if c == '"' then "\"\"" else [c]) + more) == ConsScan(c, ReadQuoted(more))
  {
    var t := (if c == '"' then "\"\"" else [c]) + more;
    if c == '"' {
      assert t[2..] == more && t[0] == '"' && t[1] == '"';
    } else {
      assert t[1..] == more && t[0] == c;
    }
  }

  lemma MarkReads(rest: string)
    ensures ReadQuoted("\"" + rest) == AfterMark(rest)
  {
    var end := "\"" + rest;
    assert end[1..] == rest;
    if "\"" <= rest { assert end[2..] == rest[1..]; }
  }

  lemma {:induction false} QuotedReads(s: string, rest: string)
    ensures var r := AfterMark(rest);
      ReadQuoted(Doubled(s) + ("\"" + rest)) == if r.Some? then Some(Scan(s + r.value.text, r.value.rest)) else None
  {
    var end := "\"" + rest;
    var r := AfterMark(rest);
    if s == "" {
      assert Doubled(s) + end == end;
      MarkReads(rest);
      if r.Some? { assert s + r.value.text == r.value.text; }
    } else {
      hide ReadQuoted, AfterMark;
      QuotedReads(s[1..], rest);
      Glue(if s[0] == '"' then "\"\"" else [s[0]], Doubled(s[1..]), end);
      QuotedStep(s[0], Doubled(s[1..]) + end);
      assert s == [s[0]] + s[1..];
      if r.Some? { Glue([s[0]], s[1..], r.value.text); }
    }
  }

  lemma FieldReads(s: string, rest: string)
    requires EndsField(rest)
    ensures ReadField(Escape(s) + rest) == Some(Scan(s, rest))
  {
    if NeedsQuote(s) {
      assert Escape(s) + rest == "\"" + (Doubled(s) + ("\"" + rest)) by {
        Glue("\"", Doubled(s) + "\"", rest);
        Glue(Doubled(s), "\"", rest);
      }
      assert ("\"" + (Doubled(s) + ("\"" + rest)))[1..] == Doubled(s) + ("\"" + rest);
      QuotedReads(s, rest);
      assert s + "" == s;
    } else {
      PlainReads(s, rest);
      assert s + "" == s;
      if s != "" { assert !IsSpecial(s[0]); }
    }
  }

  // ---------- Records read back ----------

  lemma {:induction false} FieldsConcat(a: seq<string>, b: seq<string>)
    requires a != [] && b != []
    ensures FieldsText(a + b) == FieldsText(a) + "," + FieldsText(b)
  {
    hide Escape;
    var init, last := b[..|b| - 1], b[|b| - 1];
    assert (a + b)[..|a + b| - 1] == a + init;
    if init == [] {
      assert a + init == a;
      assert FieldsText(b) == "" + "" + Escape(last) == Escape(last);
    } else {
      FieldsConcat(a, init);
      Glue(FieldsText(a) + ",", FieldsText(init), ",");
      Glue(FieldsText(a) + ",", FieldsText(init) + ",", Escape(last));
    }
  }

  /** A record of at least one field, and the line break that ends it. */
  lemma {:induction false} RecordReads(fields: seq<string>, rest: string)
    requires fields != []
    ensures ReadRecord(FieldsText(fields) + ("\n" + rest)) == Some(Line(fields, rest))
  {
    hide Escape, ReadField;
    var end := "\n" + rest;
    assert end[1..] == rest && "\n" <= end;
    var f, more := fields[0], fields[1..];
    assert FieldsText([f]) == "" + "" + Escape(f) == Escape(f) by { assert [f][..0] == []; }
    assert fields == [f] + more;
    if more == [] {
      assert fields == [f];
      FieldReads(f, end);
    } else {
      var tail := FieldsText(more) + end;
      FieldsConcat([f], more);
      Glue(Escape(f) + ",", FieldsText(more), end);
      Glue(Escape(f), ",", tail);
      assert ("," + tail)[1..] == tail && !("\n" <= "," + tail);
      FieldReads(f, "," + tail);
      RecordReads(more, rest);
    }
  }

  lemma {:induction false} TagsExtend(fields: seq<string>, tags: seq<string>)
    requires fields != []
    ensures FieldsText(fields + tags) == FieldsText(fields) + TagsText(true, tags)
  {
    hide Escape;
    if tags == [] {
      assert fields + tags == fields;
    } else {
      var init, last := tags[..|tags| - 1], tags[|tags| - 1];
      TagsExtend(fields, init);
      assert (fields + tags)[..|fields + tags| - 1] == fields + init;
      Glue(FieldsText(fields), TagsText(true, init), ",");
      Glue(FieldsText(fields), TagsText(true, init) + ",", Escape(last));
    }
  }

  /** Tag values printed one after the other, without separators. */
  function Merged(tags: seq<string>): string {
    if tags == [] then "" else Escape(tags[0]) + Merged(tags[1..])
  }

  lemma {:induction false} MergedConcat(a: seq<string>, t: string)
    ensures Merged(a + [t]) == Merged(a) + Escape(t)
  {
    hide Escape;
    if a == [] {
      assert a + [t] == [t] && [t][1..] == [];
      assert Escape(t) + "" == Escape(t) == "" + Escape(t);
    } else {
      assert (a + [t])[1..] == a[1..] + [t];
      MergedConcat(a[1..], t);
      Glue(Escape(a[0]), Merged(a[1..]), Escape(t));
    }
  }

  lemma {:induction false} TagsMerge(tags: seq<string>)
    ensures TagsText(false, tags) == Merged(tags)
  {
    hide Escape;
    if tags != [] {
      var init, last := tags[..|tags| - 1], tags[|tags| - 1];
      TagsMerge(init);
      assert tags == init + [last];
      MergedConcat(init, last);
      assert TagsText(false, init) + "" == TagsText(false, init);
    }
  }

  /** A field that stops, if it is read at all, before something other than a comma. */
  predicate NoComma(r: Option<Scan>) {
    r.Some? ==> !("," <= r.value.rest)
  }

  lemma {:induction false} MergedIsOneField(tags: seq<string>, rest: string)
    ensures NoComma(ReadPlain(Merged(tags) + ("\n" + rest))) && NoComma(AfterMark(Merged(tags) + ("\n" + rest)))
  {
    var end := "\n" + rest;
    var s := Merged(tags) + end;
    if tags == [] {
      assert s == end;
    } else {
      var t, more := tags[0], Merged(tags[1..]) + end;
      MergedIsOneField(tags[1..], rest);
      Glue(Escape(t), Merged(tags[1..]), end);
      if NeedsQuote(t) {
        Glue("\"", Doubled(t) + "\"", more);
        Glue(Doubled(t), "\"", more);
        assert s == "\"" + (Doubled(t) + ("\"" + more));
        assert s[1..] == Doubled(t) + ("\"" + more);
        hide Doubled;
        QuotedReads(t, more);
      } else {
        PlainReads(t, more);
        assert s == t + more;
        if t == "" {
          assert s == more;
        } else {
          assert !IsSpecial(t[0]) && s[0] == t[0];
        }
      }
    }
  }

  predicate Separated(fields: seq<string>, tags: seq<string>) {
    fields != [] || |tags| == 1
  }

  lemma FieldAfterName(name: string, more: string)
    requires !NeedsQuote(name)
    ensures ReadRecord(name + ("," + more)) ==
      var r := ReadRecord(more);
      if r.Some? then Some(Line([name] + r.value.fields, r.value.rest)) else None
  {
    var after := "," + more;
    hide ReadRecord, ReadField, Escape, NeedsQuote;
    assert EndsField(after) by { assert after[0] == ','; }
    assert Escape(name) == name by { PlainReads(name, after); }
    FieldReads(name, after);
    FieldThenComma(name + after, name, more);
  }

  lemma FieldThenComma(s: string, field: string, more: string)
    requires ReadField(s) == Some(Scan(field, "," + more))
    ensures ReadRecord(s) ==
      var r := ReadRecord(more);
      if r.Some? then Some(Line([field] + r.value.fields, r.value.rest)) else None
  {
    hide ReadField;
    var after := "," + more;
    assert after[0] == ',' && after[1..] == more;
    assert !("\n" <= after) && "," <= after;
  }

  /** A line is its name followed by the rest of the line. */
  lemma LineAfterName(name: string, fields: seq<string>, tags: seq<string>, rest: string)
    requires !NeedsQuote(name)
    ensures ReadRecord(SectionText(name, fields, tags) + rest) ==
      var r := ReadRecord((FieldsText(fields) + TagsText(fields != [], tags)) + ("\n" + rest));
      if r.Some? then Some(Line([name] + r.value.fields, r.value.rest)) else None
  {
    hide NeedsQuote, ReadRecord, FieldsText, TagsText;
    var body := FieldsText(fields) + TagsText(fields != [], tags);
    var end := "\n" + rest;
    assert SectionText(name, fields, tags) + rest == name + ("," + (body + end)) by {
      Glue(name + ",", FieldsText(fields), TagsText(fields != [], tags));
      Glue(name + "," + body, "\n", rest);
      Glue(name + ",", body, end);
      Glue(name, ",", body + end);
    }
    FieldAfterName(name, body + end);
  }

  /** A section's line reads back as its name and all its values exactly when it has
      entries or a single tag. */
  lemma SectionIsRecord(name: string, fields: seq<string>, tags: seq<string>, rest: string)
    requires !NeedsQuote(name)
    ensures ReadRecord(SectionText(name, fields, tags) + rest) == Some(Line([name] + fields + tags, rest))
            <==> Separated(fields, tags)
  {
    hide Escape, NeedsQuote, ReadRecord, SectionText, FieldsText, TagsText;
    if Separated(fields, tags) {
      LineAfterName(name, fields, tags, rest);
      SeparatedRecord(fields, tags, rest);
      assert [name] + fields + tags == [name] + (fields + tags);
    } else {
      UnseparatedRecord(name, fields, tags, rest);
    }
  }

  lemma SeparatedRecord(fields: seq<string>, tags: seq<string>, rest: string)
    requires Separated(fields, tags)
    ensures ReadRecord((FieldsText(fields) + TagsText(fields != [], tags)) + ("\n" + rest)) ==
            Some(Line(fields + tags, rest))
  {
    hide Escape, ReadRecord;
    if fields != [] {
      TagsExtend(fields, tags);
      RecordReads(fields + tags, rest);
    } else {
      assert tags == [tags[0]] && tags[..0] == [] && fields + tags == tags;
      var e := Escape(tags[0]);
      assert TagsText(false, tags) == "" + "" + e && FieldsText(tags) == "" + "" + e;
      assert "" + TagsText(false, tags) == FieldsText(tags);
      RecordReads(tags, rest);
    }
  }

  /** Otherwise the line reads as two fields, if at all, and not as many as it has values. */
  lemma UnseparatedRecord(name: string, fields: seq<string>, tags: seq<string>, rest: string)
    requires !NeedsQuote(name) && !Separated(fields, tags)
    ensures var r := ReadRecord(SectionText(name, fields, tags) + rest); r.Some? ==> |r.value.fields| == 2
    ensures |[name] + fields + tags| != 2
  {
    hide Escape, NeedsQuote, ReadRecord, SectionText;
    LineAfterName(name, fields, tags, rest);
    TagsMerge(tags);
    assert "" + TagsText(false, tags) == Merged(tags);
    MergedRecord(tags, rest);
  }

  lemma MergedRecord(tags: seq<string>, rest: string)
    ensures var r := ReadRecord(Merged(tags) + ("\n" + rest)); r.Some? ==> |r.value.fields| == 1
  {
    var s := Merged(tags) + ("\n" + rest);
    MergedIsOneField(tags, rest);
    assert NoComma(ReadField(s));
  }

  // ---------- Whole files ----------

  /** A section of a run, with the chapter it is in. */
  datatype Shown = Shown(chapter: string, section: Section)

  function EntryFields(shown: string -> bool, s: Shown): seq<string> {
    Fields(s.chapter == "format", shown, s.section.entries)
  }

  function RecordOf(shown: string -> bool, s: Shown): seq<string> {
    [s.section.name] + EntryFields(shown, s) + TagFields(s.section)
  }

  function LineOf(shown: string -> bool, s: Shown): string {
    SectionText(s.section.name, EntryFields(shown, s), TagFields(s.section))
  }

  function FileText(shown: string -> bool, ss: seq<Shown>): string {
    if ss == [] then "" else FileText(shown, ss[..|ss| - 1]) + LineOf(shown, ss[|ss| - 1])
  }

  function Records(shown: string -> bool, ss: seq<Shown>): seq<seq<string>> {
    seq(|ss|, i requires 0 <= i < |ss| => RecordOf(shown, ss[i]))
  }

  predicate PlainNames(ss: seq<Shown>) {
    forall i :: 0 <= i < |ss| ==> !NeedsQuote(ss[i].section.name)
  }

  predicate AllSeparated(shown: string -> bool, ss: seq<Shown>) {
    forall i :: 0 <= i < |ss| ==> Separated(EntryFields(shown, ss[i]), TagFields(ss[i].section))
  }

  /** A first line that is separated is the first record. */
  lemma LineThen(shown: string -> bool, s: Shown, rest: string)
    requires !NeedsQuote(s.section.name) && Separated(EntryFields(shown, s), TagFields(s.section))
    ensures var r := ReadFile(rest);
      ReadFile(LineOf(shown, s) + rest) == if r.Some? then Some([RecordOf(shown, s)] + r.value) else None
  {
    hide SectionText, EntryFields, TagFields, Separated, NeedsQuote, ReadRecord;
    SectionIsRecord(s.section.name, EntryFields(shown, s), TagFields(s.section), rest);
    LineNotEmpty(s.section.name, EntryFields(shown, s), TagFields(s.section));
  }

  /** A first line that is not separated is not the first record. */
  lemma BadLineThen(shown: string -> bool, s: Shown, rest: string)
    requires !NeedsQuote(s.section.name) && !Separated(EntryFields(shown, s), TagFields(s.section))
    ensures var r := ReadFile(LineOf(shown, s) + rest); r.Some? ==> r.value != [] && r.value[0] != RecordOf(shown, s)
  {
    hide SectionText, EntryFields, TagFields, Separated, NeedsQuote, ReadRecord;
    UnseparatedRecord(s.section.name, EntryFields(shown, s), TagFields(s.section), rest);
    LineNotEmpty(s.section.name, EntryFields(shown, s), TagFields(s.section));
  }

  lemma LineNotEmpty(name: string, fields: seq<string>, tags: seq<string>)
    ensures SectionText(name, fields, tags) != ""
  {
  }

  lemma {:induction false} FileThen(shown: string -> bool, ss: seq<Shown>, rest: string)
    requires PlainNames(ss) && AllSeparated(shown, ss)
    ensures var r := ReadFile(rest);
      ReadFile(FileText(shown, ss) + rest) == if r.Some? then Some(Records(shown, ss) + r.value) else None
  {
    hide LineOf, EntryFields, TagFields, Separated, NeedsQuote, ReadFile, RecordOf;
    var r := ReadFile(rest);
    if ss == [] {
      assert FileText(shown, ss) + rest == rest && Records(shown, ss) == [];
      if r.Some? { assert [] + r.value == r.value; }
    } else {
      var init, last := ss[..|ss| - 1], ss[|ss| - 1];
      LineThen(shown, last, rest);
      FileThen(shown, init, LineOf(shown, last) + rest);
      Glue(FileText(shown, init), LineOf(shown, last), rest);
      var record := RecordOf(shown, last);
      assert Records(shown, ss) == Records(shown, init) + [record];
      if r.Some? { assert Records(shown, init) + ([record] + r.value) == Records(shown, ss) + r.value; }
    }
  }

  lemma NotAPrefix(a: seq<seq<string>>, x: seq<string>, b: seq<seq<string>>)
    requires b != [] && b[0] != x
    ensures !(a + [x] <= a + b)
  {
    assert (a + [x])[|a|] == x && (a + b)[|a|] == b[0];
  }

  /** One line that is not separated spoils the records, whatever follows. */
  lemma {:induction false} BadFileThen(shown: string -> bool, ss: seq<Shown>, rest: string)
    requires PlainNames(ss) && !AllSeparated(shown, ss)
    ensures var r := ReadFile(FileText(shown, ss) + rest); r.Some? ==> !(Records(shown, ss) <= r.value)
  {
    hide LineOf, EntryFields, TagFields, Separated, NeedsQuote, ReadFile, RecordOf;
    var init, last := ss[..|ss| - 1], ss[|ss| - 1];
    var more := LineOf(shown, last) + rest;
    Glue(FileText(shown, init), LineOf(shown, last), rest);
    assert Records(shown, ss) == Records(shown, init) + [RecordOf(shown, last)];
    if AllSeparated(shown, init) {
      BadLineThen(shown, last, rest);
      FileThen(shown, init, more);
      var r := ReadFile(more);
      if r.Some? { NotAPrefix(Records(shown, init), RecordOf(shown, last), r.value); }
    } else {
      BadFileThen(shown, init, more);
      assert Records(shown, init) <= Records(shown, ss);
    }
  }

  /** The CSV output of a run whose section names are plain reads back as one record per
      section, in order, exactly when every section is separated. */
  lemma FileIsCsv(shown: string -> bool, ss: seq<Shown>)
    requires PlainNames(ss)
    ensures ReadFile(FileText(shown, ss)) == Some(Records(shown, ss)) <==> AllSeparated(shown, ss)
  {
    hide PlainNames, AllSeparated, FileText, Records;
    assert FileText(shown, ss) + "" == FileText(shown, ss);
    if AllSeparated(shown, ss) {
      FileThen(shown, ss, "");
      assert Records(shown, ss) + [] == Records(shown, ss);
    } else {
      BadFileThen(shown, ss, "");
    }
  }

  // ---------- What a record shows ----------

  /** A field shows an entry: its text, or a numeral of its number. */
  predicate ShowsField(field: string, e: Entry) {
    if e.IntEntry? then NumeralValue(field) == e.number else field == e.text
  }

  /** One field for each entry, in order, optional or not; in the "format" chapter for each
      one chosen. */
  lemma FieldsInOrder(fmt: bool, shown: string -> bool, es: seq<Entry>, i: nat)
    requires i < |es|
    ensures Fields(fmt, shown, []) == []
    ensures var before, after := Fields(fmt, shown, es[..i]), Fields(fmt, shown, es[..i + 1]);
      if fmt ==> shown(es[i].key) then
        |after| == |before| + 1 && after[..|before|] == before && ShowsField(after[|before|], es[i])
      else after == before
  {
    assert es[..i + 1][..i] == es[..i];
    if es[i].IntEntry? { IntTextReads(es[i].number); }
    hide IntText, NumeralValue;
  }

  /** A last entry that is not chosen makes no difference. */
  lemma SameChoice(fmt: bool, shown: string -> bool, es: seq<Entry>)
    requires es != [] && !(fmt ==> shown(es[|es| - 1].key))
    ensures (exists e :: e in es && (fmt ==> shown(e.key))) <==>
            (exists e :: e in es[..|es| - 1] && (fmt ==> shown(e.key)))
  {
    var init, last := es[..|es| - 1], es[|es| - 1];
    assert es == init + [last];
    forall e | e in es && (fmt ==> shown(e.key))
      ensures e in init
    {
      assert e != last;
    }
    assert forall e :: e in init ==> e in es;
  }

  lemma {:induction false} NoFieldsIff(fmt: bool, shown: string -> bool, es: seq<Entry>)
    ensures Fields(fmt, shown, es) != [] <==> exists e :: e in es && (fmt ==> shown(e.key))
    decreases |es|
  {
    hide ValueText;
    if es != [] {
      var init, last := es[..|es| - 1], es[|es| - 1];
      NoFieldsIff(fmt, shown, init);
      if fmt ==> shown(last.key) {
        assert last in es;
      } else {
        assert Fields(fmt, shown, es) == Fields(fmt, shown, init);
        SameChoice(fmt, shown, es);
      }
    }
  }

  /** A run of plain section names is read back exactly if every section has a chosen entry or
      exactly one tag; there is then one record for each section, in order: its name, the
      fields of its entries, and the text of each of its tags. */
  lemma RecordsShow(shown: string -> bool, ss: seq<Shown>)
    requires PlainNames(ss)
    ensures ReadFile(FileText(shown, ss)) == Some(Records(shown, ss)) <==>
      forall i :: 0 <= i < |ss| ==>
        || (exists e :: e in ss[i].section.entries && (ss[i].chapter == "format" ==> shown(e.key)))
        || (ss[i].section.tags.Some? && |ss[i].section.tags.value| == 1)
    ensures |Records(shown, ss)| == |ss|
    ensures forall i :: 0 <= i < |ss| ==> ShowsSection(Records(shown, ss)[i], shown, ss[i])
  {
    hide PlainNames, ReadFile, FileText, Fields;
    FileIsCsv(shown, ss);
    forall i | 0 <= i < |ss|
      ensures ShowsSection(Records(shown, ss)[i], shown, ss[i])
      ensures Separated(EntryFields(shown, ss[i]), TagFields(ss[i].section)) <==>
        || (exists e :: e in ss[i].section.entries && (ss[i].chapter == "format" ==> shown(e.key)))
        || (ss[i].section.tags.Some? && |ss[i].section.tags.value| == 1)
    {
      NoFieldsIff(ss[i].chapter == "format", shown, ss[i].section.entries);
    }
  }

  predicate ShowsSection(record: seq<string>, shown: string -> bool, s: Shown) {
    var fields := Fields(s.chapter == "format", shown, s.section.entries);
    var n := if s.section.tags.Some? then |s.section.tags.value| else 0;
    && |record| == 1 + |fields| + n && record[0] == s.section.name
    && record[1..|fields| + 1] == fields
    && forall k :: 0 <= k < n ==> record[1 + |fields| + k] == s.section.tags.value[k].text
  }

  /** A section that is not separated is reachable: when -show_format_entry selects no printed
      entry, the tags of a format section run together, and the file reads back otherwise. */
  lemma NoSelectedEntryMergesTags(shown: string -> bool, file: string, tag: Tag, other: Tag)
    requires !shown("filename")
    ensures var s := Shown("format", Section("format", [StrEntry("filename", file, false)], Some([tag, other])));
      ReadFile(FileText(shown, [s])) != Some(Records(shown, [s]))
  {
    var s := Shown("format", Section("format", [StrEntry("filename", file, false)], Some([tag, other])));
    var es := s.section.entries;
    assert Fields(true, shown, es) == Fields(true, shown, []) == [] by { assert |es| == 1 && es[..0] == []; }
    assert !Separated(EntryFields(shown, [s][0]), TagFields([s][0].section));
    hide ReadFile, FileText, Records, EntryFields;
    FileIsCsv(shown, [s]);
  }
}
