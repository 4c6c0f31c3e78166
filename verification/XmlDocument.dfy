/** What a reader of ffprobe's XML output finds: one child of the root for each chapter, and in
    it the sections with their entries and tags. */
module XmlDocument {
  import opened Options
  import opened ProbeReport
  import opened XmlGrammar
  import opened XmlReport

  /** The attribute shows an entry: its key, and its text with white space as spaces or a
      numeral of its number. */
  predicate ShowsEntry(a: Attr, e: Entry) {
    a.name == e.key &&
    if e.IntEntry? then NumeralValue(a.value) == e.number
    else |a.value| == |e.text| && forall i :: 0 <= i < |e.text| ==> a.value[i] == Shown(e.text[i])
  }

  function Shown(c: char): char {
    if c == '\t' || c == '\n' || c == '\r' then ' ' else c
  }

  predicate ShowsTag(x: Element, t: Tag) {
    x.name == "tag" && x.children == [] && |x.attrs| == 2 &&
    ShowsEntry(x.attrs[0], StrEntry("key", t.key, false)) && ShowsEntry(x.attrs[1], StrEntry("value", t.text, false))
  }

  /** An element shows a section: the entries es as attributes, in order, and its tags as
      children. */
  predicate ShowsSection(x: Element, sec: Section, es: seq<Entry>) {
    && x.name == sec.name && |x.attrs| == |es| && (forall i :: 0 <= i < |es| ==> ShowsEntry(x.attrs[i], es[i]))
    && |x.children| == (if sec.tags.Some? then |sec.tags.value| else 0)
    && (forall i :: 0 <= i < |x.children| ==> ShowsTag(x.children[i], sec.tags.value[i]))
  }

  /** The child for a chapter: an element with a child for each section, in order, or the
      element of its one section. */
  predicate ShowsChapter(x: Element, shown: string -> bool, ch: Chapter) {
    x.name == ch.name &&
    if ch.name in {"format", "error", "program_version"} then
      |ch.sections| == 1 &&
      ShowsSection(x, ch.sections[0], Printed(ch.name == "format", shown, ch.sections[0].entries))
    else
      x.attrs == [] && |x.children| == |ch.sections| &&
      forall k :: 0 <= k < |ch.sections| ==>
        ShowsSection(x.children[k], ch.sections[k], Printed(false, shown, ch.sections[k].entries))
  }

  // ---------- One section ----------

  lemma EntryShows(e: Entry)
    ensures IntIsNormal(e) ==> ShowsEntry(AttrOf(e), e)
  {
    hide IntText, NumeralValue;
    if e.IntEntry? { IntTextReads(e.number); }
  }

  /** A printed number has no white space. */
  predicate IntIsNormal(e: Entry) {
    e.IntEntry? ==> NormalText(IntText(e.number)) == IntText(e.number)
  }

  lemma {:induction false} DigitsAreNormal(n: nat)
    ensures forall i :: 0 <= i < |NatText(n)| ==> !IsSpace(NatText(n)[i])
  {
    assert n % 10 in {0, 1, 2, 3, 4, 5, 6, 7, 8, 9};
    if n >= 10 { DigitsAreNormal(n / 10); }
  }

  lemma NumbersAreNormal(v: int)
    ensures NormalText(IntText(v)) == IntText(v)
  {
    DigitsAreNormal(if v < 0 then -v else v);
    hide NatText;
    ValueComesBack(IntText(v));
  }

  lemma SectionShows(sec: Section, es: seq<Entry>)
    ensures ShowsSection(SectionElement(sec.name, es, TagsOf(sec)).Tree(), sec, es)
  {
    hide ShowsEntry, AttrOf, IntText;
    var x := SectionElement(sec.name, es, TagsOf(sec)).Tree();
    forall i | 0 <= i < |es|
      ensures ShowsEntry(x.attrs[i], es[i])
    {
      if es[i].IntEntry? { NumbersAreNormal(es[i].number); }
      EntryShows(es[i]);
    }
    var tags := TagsOf(sec);
    forall i | 0 <= i < |tags|
      ensures ShowsTag(x.children[i], tags[i])
    {
      assert x.children[i] == TagElement(tags[i]).Tree();
      TagShows(tags[i]);
    }
  }

  lemma TagShows(t: Tag)
    ensures ShowsTag(TagElement(t).Tree(), t)
  {
    hide ShowsEntry, AttrOf, IntText;
    var x := TagElement(t).Tree();
    assert x.children == [];
    EntryShows(StrEntry("key", t.key, false));
    EntryShows(StrEntry("value", t.text, false));
  }

  // ---------- The whole document ----------

  lemma ListsAreMulti(ch: Chapter)
    requires IsList(ch.name) || IsRecord(ch)
    ensures IsMulti(ch.name) <==> IsList(ch.name)
    ensures IsMulti(ch.name) <==> !IsRecord(ch)
    ensures IsMulti(ch.name) ==> ch.name !in {"format", "error", "program_version"}
  {
  }

  lemma ChapterShows(shown: string -> bool, ch: Chapter)
    requires IsList(ch.name) || IsRecord(ch)
    ensures |ChapterElements(shown, ch)| == 1 && ShowsChapter(ChapterElements(shown, ch)[0].Tree(), shown, ch)
  {
    hide ShowsSection, SectionElement, Printed;
    ListsAreMulti(ch);
    var x := ChapterElements(shown, ch)[0].Tree();
    if IsMulti(ch.name) {
      forall k | 0 <= k < |ch.sections|
        ensures ShowsSection(x.children[k], ch.sections[k], Printed(false, shown, ch.sections[k].entries))
      {
        assert x.children[k] == ElementOf(shown, ch.name, ch.sections[k]).Tree();
        SectionShows(ch.sections[k], Printed(false, shown, ch.sections[k].entries));
      }
    } else {
      SectionShows(ch.sections[0], Printed(ch.name == "format", shown, ch.sections[0].entries));
      SectionName(shown, ch);
    }
  }

  lemma SectionName(shown: string -> bool, ch: Chapter)
    requires |ch.sections| == 1 && ch.sections[0].name == ch.name
    ensures ElementOf(shown, ch.name, ch.sections[0]).Tree().name == ch.name
  {
    hide Printed;
  }

  lemma {:induction false} OneElementEach(shown: string -> bool, r: Report)
    requires forall i :: 0 <= i < |r| ==> IsList(r[i].name) || IsRecord(r[i])
    ensures |ReportElements(shown, r)| == |r|
    ensures forall i :: 0 <= i < |r| ==> ShowsChapter(ReportElements(shown, r)[i].Tree(), shown, r[i])
  {
    hide ChapterElements, ShowsChapter;
    if r != [] {
      OneElementEach(shown, r[..|r| - 1]);
      ChapterShows(shown, r[|r| - 1]);
    }
  }

  /** The output of a run of ffprobe, if it is well formed at all, has a root with one child for
      each chapter, in order and under its name: the packets, frames, streams and libraries
      are elements with one child for each section, in order, and every section is shown. */
  lemma RunIsDocument(shown: string -> bool, r: Report)
    requires ValidCalls(r)
    requires forall i, k :: 0 <= i < k < |r| ==> r[i].name != r[k].name
    requires forall i :: 0 <= i < |r| ==>
      || r[i].name in {"packets", "frames", "packets_and_frames", "streams", "library_versions"}
      || (r[i].name in {"format", "error", "program_version"} &&
          |r[i].sections| == 1 && r[i].sections[0].name == r[i].name)
    ensures var x := Parse(ReportText(shown, r)); x.Some? ==>
      && x.value.name == "ffprobe" && x.value.attrs == [] && |x.value.children| == |r|
      && (forall i :: 0 <= i < |r| ==> ShowsChapter(x.value.children[i], shown, r[i]))
      && (forall i, k :: 0 <= i < k < |r| ==> x.value.children[i].name != x.value.children[k].name)
  {
    hide ReportText, Parse, ReportReadable, ReportElements, ValidCalls;
    ReportIsXml(shown, r);
    hide ShowsSection;
    OneElementEach(shown, r);
  }
}
