/** What a reader of ffprobe's JSON output finds: one member for each chapter, and in it the
    sections with their entries and tags. */
module JsonDocument {
  import opened Options
  import opened ProbeReport
  import opened JsonGrammar
  import opened JsonReport

  /** The value shows an entry: its key, and its text or a numeral of its number. */
  predicate ShowsEntry(m: Member, e: Entry) {
    m.name == e.key &&
    if e.IntEntry? then m.value.JNumber? && NumeralValue(m.value.lexeme) == e.number
    else m.value == JString(e.text)
  }

  predicate ShowsTags(m: Member, tags: seq<Tag>) {
    m.name == "tags" && m.value.JObject? && |m.value.members| == |tags| &&
    forall i :: 0 <= i < |tags| ==> m.value.members[i] == Member(tags[i].key, JString(tags[i].text))
  }

  /** An object shows a section: its type if that is asked for, the entries es in order, and
      its tags. */
  predicate ShowsSection(j: Json, typed: bool, sec: Section, es: seq<Entry>) {
    && j.JObject?
    && var first := if typed then 1 else 0;
       var ms := j.members;
       && |ms| == first + |es| + (if sec.tags.Some? then 1 else 0)
       && (typed ==> ms[0] == Member("type", JString(sec.name)))
       && (forall i :: 0 <= i < |es| ==> ShowsEntry(ms[first + i], es[i]))
       && (sec.tags.Some? ==> ShowsTags(ms[|ms| - 1], sec.tags.value))
  }

  /** The last list up to chapter i is the one of packets and frames together. */
  ghost predicate AmongMixed(r: Report, i: nat)
    requires i < |r|
  {
    exists k :: MixedSince(r, k, i)
  }

  ghost predicate MixedSince(r: Report, k: nat, i: nat)
    requires i < |r|
  {
    k <= i && r[k].name == "packets_and_frames" &&
    forall l :: k < l <= i ==> r[l].name in {"format", "error", "program_version"}
  }

  /** The member of chapter i: an array of its sections in order, or the object of its one
      section. */
  ghost predicate ShowsChapter(m: Member, shown: string -> bool, r: Report, i: nat)
    requires i < |r|
  {
    var ch, typed := r[i], AmongMixed(r, i);
    m.name == ch.name &&
    if ch.name in {"format", "error", "program_version"} then
      |ch.sections| == 1 &&
      ShowsSection(m.value, typed, ch.sections[0], Printed(ch.name == "format", shown, ch.sections[0].entries))
    else
      m.value.JArray? && |m.value.elements| == |ch.sections| &&
      forall k :: 0 <= k < |ch.sections| ==>
        ShowsSection(m.value.elements[k], typed, ch.sections[k], Printed(false, shown, ch.sections[k].entries))
  }

  /** A section with tags or a type has an entry that is printed. */
  ghost predicate HasItems(shown: string -> bool, r: Report, i: nat, sec: Section)
    requires i < |r|
  {
    sec.tags.Some? || AmongMixed(r, i) ==>
      exists e :: e in sec.entries && !(e.StrEntry? && e.optional) && (r[i].name == "format" ==> shown(e.key))
  }

  // ---------- One section ----------

  lemma SectionShows(typed: bool, sec: Section, es: seq<Entry>)
    ensures ShowsSection(SectionValue(typed, sec.name, es, sec.tags), typed, sec, es)
  {
    hide IntText, NumeralValue;
    var ms := SectionValue(typed, sec.name, es, sec.tags).members;
    var first := if typed then 1 else 0;
    forall i | 0 <= i < |es|
      ensures ShowsEntry(ms[first + i], es[i])
    {
      assert ms[first + i] == EntryMembers(es)[i] == EntryMember(es[i]);
      if es[i].IntEntry? { IntTextReads(es[i].number); }
    }
    if sec.tags.Some? { TagsShow(sec.tags.value); }
  }

  lemma TagsShow(tags: seq<Tag>)
    ensures ShowsTags(Member("tags", JObject(EntryMembers(TagEntries(tags)))), tags)
  {
    var ms := EntryMembers(TagEntries(tags));
    forall i | 0 <= i < |tags|
      ensures ms[i] == Member(tags[i].key, JString(tags[i].text))
    {
      assert ms[i] == EntryMember(TagEntries(tags)[i]);
    }
  }

  // ---------- The type prefix ----------

  lemma {:induction false} TypedIff(r: Report, i: nat)
    requires i < |r| && forall k :: 0 <= k < |r| ==> IsList(r[k].name) || IsRecord(r[k])
    ensures TypedAfter(r[..i + 1]) <==> AmongMixed(r, i)
    decreases i
  {
    var p := r[..i + 1];
    assert p[|p| - 1] == r[i] && p[..|p| - 1] == r[..i];
    if IsMulti(r[i].name) {
      assert IsList(r[i].name) by { ListsAreMulti(r[i]); }
      if r[i].name == "packets_and_frames" { assert MixedSince(r, i, i); }
    } else {
      assert IsRecord(r[i]) by { ListsAreMulti(r[i]); }
      if i > 0 {
        TypedIff(r, i - 1);
        if AmongMixed(r, i - 1) {
          var k :| MixedSince(r, k, i - 1);
          assert MixedSince(r, k, i);
        }
        if AmongMixed(r, i) {
          var k :| MixedSince(r, k, i);
          assert k != i;
          assert MixedSince(r, k, i - 1);
        }
      } else {
        assert r[..0] == [] && !TypedAfter([]);
        assert !AmongMixed(r, 0);
      }
    }
  }

  lemma ListsAreMulti(ch: Chapter)
    requires IsList(ch.name) || IsRecord(ch)
    ensures IsMulti(ch.name) <==> IsList(ch.name)
    ensures IsMulti(ch.name) <==> !IsRecord(ch)
    ensures IsMulti(ch.name) ==> ch.name !in {"format", "error", "program_version"}
  {
  }

  // ---------- The whole document ----------

  /** Each chapter of a report of ffprobe is one member. */
  lemma {:induction false} OneMemberEach(shown: string -> bool, r: Report)
    requires forall i :: 0 <= i < |r| ==> IsList(r[i].name) || IsRecord(r[i])
    ensures |ReportMembers(shown, r)| == |r|
    ensures forall i :: 0 <= i < |r| ==>
      ChapterMembers(TypedAfter(r[..i + 1]), shown, r[i]) == [ReportMembers(shown, r)[i]]
  {
    hide ChapterMembers, TypedAfter;
    if r != [] {
      var init, n := r[..|r| - 1], |r| - 1;
      OneMemberEach(shown, init);
      OneMember(TypedAfter(r), shown, r[n]);
      assert r[..n + 1] == r;
      forall i | 0 <= i < |r|
        ensures ChapterMembers(TypedAfter(r[..i + 1]), shown, r[i]) == [ReportMembers(shown, r)[i]]
      {
        if i < n { assert init[..i + 1] == r[..i + 1] && init[i] == r[i]; }
      }
    }
  }

  lemma OneMember(typed: bool, shown: string -> bool, ch: Chapter)
    requires IsList(ch.name) || IsRecord(ch)
    ensures |ChapterMembers(typed, shown, ch)| == 1
  {
    ListsAreMulti(ch);
  }

  lemma ChapterShows(shown: string -> bool, r: Report, i: nat, m: Member)
    requires i < |r| && forall k :: 0 <= k < |r| ==> IsList(r[k].name) || IsRecord(r[k])
    requires ChapterMembers(TypedAfter(r[..i + 1]), shown, r[i]) == [m]
    ensures ShowsChapter(m, shown, r, i)
  {
    hide AmongMixed, TypedAfter, ShowsSection, SectionValue, Printed;
    var ch, typed := r[i], AmongMixed(r, i);
    TypedIff(r, i);
    ListsAreMulti(ch);
    if IsMulti(ch.name) {
      assert m == Member(ch.name, JArray(Values(typed, shown, ch.name, ch.sections)));
      forall k | 0 <= k < |ch.sections|
        ensures ShowsSection(m.value.elements[k], typed, ch.sections[k], Printed(false, shown, ch.sections[k].entries))
      {
        SectionShows(typed, ch.sections[k], Printed(false, shown, ch.sections[k].entries));
      }
    } else {
      assert m == Named(typed, shown, ch.name, ch.sections)[0];
      SectionShows(typed, ch.sections[0], Printed(ch.name == "format", shown, ch.sections[0].entries));
    }
  }

  /** The output of a run of ffprobe, if it is JSON at all, is an object with one member for
      each chapter, in order and under its name, none twice: the packets, frames, streams and
      libraries are arrays with one object for each section, in order, and every object shows
      its section.  It is JSON exactly if every section has what its commas separate. */
  lemma RunIsDocument(compact: bool, shown: string -> bool, r: Report)
    requires forall i, k :: 0 <= i < k < |r| ==> r[i].name != r[k].name
    requires forall i :: 0 <= i < |r| ==>
      || r[i].name in {"packets", "frames", "packets_and_frames", "streams", "library_versions"}
      || (r[i].name in {"format", "error", "program_version"} &&
          |r[i].sections| == 1 && r[i].sections[0].name == r[i].name)
    requires forall i, k :: 0 <= i < |r| && 0 <= k < |r[i].sections| ==> PlainName(r[i].sections[k].name)
    ensures Parse(ReportText(compact, shown, r)).Some? <==>
      forall i, k :: 0 <= i < |r| && 0 <= k < |r[i].sections| ==> HasItems(shown, r, i, r[i].sections[k])
    ensures var j := Parse(ReportText(compact, shown, r)); j.Some? ==>
      && j.value.JObject? && |j.value.members| == |r|
      && (forall i :: 0 <= i < |r| ==> ShowsChapter(j.value.members[i], shown, r, i))
      && (forall i, k :: 0 <= i < k < |r| ==> j.value.members[i].name != j.value.members[k].name)
  {
    hide ReportText, Parse, ReportReadable, ReportMembers, ChapterMembers, TypedAfter, ShowsChapter;
    ProbeCallsAreValid(r);
    ReportIsJson(compact, shown, r);
    ReadableIff(shown, r);
    if ReportReadable(shown, r) {
      OneMemberEach(shown, r);
      var ms := ReportMembers(shown, r);
      forall i | 0 <= i < |r|
        ensures ShowsChapter(ms[i], shown, r, i) && ms[i].name == r[i].name
      {
        ChapterShows(shown, r, i, ms[i]);
        NameShown(shown, r, i, ms[i]);
      }
    }
  }

  lemma ReadableIff(shown: string -> bool, r: Report)
    requires forall i :: 0 <= i < |r| ==> IsList(r[i].name) || IsRecord(r[i])
    ensures ReportReadable(shown, r) <==>
      forall i, k :: 0 <= i < |r| && 0 <= k < |r[i].sections| ==> HasItems(shown, r, i, r[i].sections[k])
  {
    hide HasItems, Readable;
    forall i, k | 0 <= i < |r| && 0 <= k < |r[i].sections|
      ensures HasItems(shown, r, i, r[i].sections[k]) <==>
              Readable(TypedAfter(r[..i + 1]), shown, r[i].name, r[i].sections[k])
    {
      TypedIff(r, i);
      ItemsIff(shown, r, i, r[i].sections[k]);
    }
    hide TypedAfter;
    if ReportReadable(shown, r) {
      forall i, k | 0 <= i < |r| && 0 <= k < |r[i].sections|
        ensures HasItems(shown, r, i, r[i].sections[k])
      {
        assert ReadableAt(shown, r, i);
      }
    } else {
      var i :| 0 <= i < |r| && !ReadableAt(shown, r, i);
      var k :| 0 <= k < |r[i].sections| && !Readable(TypedAfter(r[..i + 1]), shown, r[i].name, r[i].sections[k]);
      assert !HasItems(shown, r, i, r[i].sections[k]);
    }
  }

  lemma ItemsIff(shown: string -> bool, r: Report, i: nat, sec: Section)
    requires i < |r|
    ensures HasItems(shown, r, i, sec) <==> Readable(AmongMixed(r, i), shown, r[i].name, sec)
  {
    hide AmongMixed;
    var es := Printed(r[i].name == "format", shown, sec.entries);
    if es != [] { assert es[0] in es; }
  }

  lemma NameShown(shown: string -> bool, r: Report, i: nat, m: Member)
    requires i < |r| && ShowsChapter(m, shown, r, i)
    ensures m.name == r[i].name
  {
  }

  lemma ProbeCallsAreValid(r: Report)
    requires forall i :: 0 <= i < |r| ==> IsList(r[i].name) || IsRecord(r[i])
    requires forall i, k :: 0 <= i < |r| && 0 <= k < |r[i].sections| ==> PlainName(r[i].sections[k].name)
    ensures ValidCalls(r)
  {
    forall i | 0 <= i < |r|
      ensures ValidChapter(r[i])
    {
      ListsAreMulti(r[i]);
    }
  }
}
