/** How ffprobe's JSON output is laid out in lines: compact output prints each section on a
    single line, other output each item of a section. */
module JsonLayout {
  import opened Options
  import opened ProbeReport
  import opened JsonReport

  ghost function LineFeeds(s: string): nat {
    multiset(s)['\n']
  }

  lemma Together(a: string, b: string)
    ensures LineFeeds(a + b) == LineFeeds(a) + LineFeeds(b)
  {
  }

  lemma Together3(a: string, b: string, c: string)
    ensures LineFeeds(a + b + c) == LineFeeds(a) + LineFeeds(b) + LineFeeds(c)
  {
    hide LineFeeds;
    Together(a + b, c);
    Together(a, b);
  }

  lemma Together4(a: string, b: string, c: string, d: string)
    ensures LineFeeds(a + b + c + d) == LineFeeds(a) + LineFeeds(b) + LineFeeds(c) + LineFeeds(d)
  {
    hide LineFeeds;
    Together(a + b + c, d);
    Together3(a, b, c);
  }

  lemma NoLineFeed(s: string)
    requires forall i :: 0 <= i < |s| ==> s[i] != '\n'
    ensures LineFeeds(s) == 0
  {
    assert '\n' !in s;
  }

  lemma {:induction false} EscapedOnOneLine(s: string)
    ensures LineFeeds(Escape(s)) == 0
  {
    hide LineFeeds;
    if s == "" {
      NoLineFeed("");
    } else {
      EscapedOnOneLine(s[1..]);
      EscapedChar(s[0]);
      hide EscapeChar;
      Together(EscapeChar(s[0]), Escape(s[1..]));
    }
  }

  lemma EscapedChar(c: char)
    ensures LineFeeds(EscapeChar(c)) == 0
  {
    hide LineFeeds;
    if c < ' ' {
      assert Digit(c as nat / 16) != '\n' && Digit(c as nat % 16) != '\n' by {
        DigitOnOneLine(c as nat / 16);
        DigitOnOneLine(c as nat % 16);
      }
    }
    hide Digit;
    NoLineFeed(EscapeChar(c));
  }

  lemma DigitOnOneLine(d: nat)
    requires d < 16
    ensures Digit(d) != '\n'
  {
    assert d in {0, 1, 2, 3, 4, 5, 6, 7, 8, 9, 10, 11, 12, 13, 14, 15};
  }

  lemma {:induction false} NumberOnOneLine(n: nat)
    ensures LineFeeds(NatText(n)) == 0
  {
    hide LineFeeds;
    DigitOnOneLine(n % 10);
    if n < 10 {
      NoLineFeed(NatText(n));
    } else {
      NumberOnOneLine(n / 10);
      hide Digit;
      NoLineFeed([Digit(n % 10)]);
      Together(NatText(n / 10), [Digit(n % 10)]);
    }
  }

  lemma QuotedOnOneLine(s: string)
    ensures LineFeeds(Quote(s)) == 0
  {
    hide LineFeeds;
    EscapedOnOneLine(s);
    NoLineFeed("\"");
    Together("\"", Escape(s));
    Together("\"" + Escape(s), "\"");
    assert Quote(s) == "\"" + Escape(s) + "\"";
  }

  lemma IntOnOneLine(v: int)
    ensures LineFeeds(IntText(v)) == 0
  {
    hide LineFeeds, NatText;
    NumberOnOneLine(if v < 0 then -v else v);
    NoLineFeed("-");
    if v < 0 { Together("-", NatText(-v)); }
  }

  lemma EntryOnOneLine(e: Entry)
    ensures LineFeeds(EntryText(e)) == 0
  {
    hide LineFeeds, Quote, IntText;
    QuotedOnOneLine(e.key);
    NoLineFeed(": ");
    if e.IntEntry? { IntOnOneLine(e.number); } else { QuotedOnOneLine(e.text); }
    Together3(Quote(e.key), ": ", if e.IntEntry? then IntText(e.number) else Quote(e.text));
  }

  lemma BlanksOnly(compact: bool, level: nat)
    ensures LineFeeds(Indent(level)) == 0 && LineFeeds(Pad(compact, level)) == 0
  {
    hide LineFeeds;
    NoLineFeed(Indent(level));
    NoLineFeed("");
  }

  lemma Separators(compact: bool)
    ensures LineFeeds(Sep(compact)) == LineFeeds(StartEnd(compact)) == if compact then 0 else 1
  {
  }

  lemma {:induction false} EntriesOnLines(compact: bool, level: nat, es: seq<Entry>)
    ensures LineFeeds(EntriesText(compact, level, es)) == if compact || es == [] then 0 else |es| - 1
  {
    hide LineFeeds;
    NoLineFeed("");
    if es != [] {
      EntriesOnLines(compact, level, es[..|es| - 1]);
      EntryOnOneLine(es[|es| - 1]);
      Separators(compact);
      BlanksOnly(compact, level);
      hide Sep, Pad, EntryText;
      Together4(EntriesText(compact, level, es[..|es| - 1]), if |es| > 1 then Sep(compact) else "",
                Pad(compact, level), EntryText(es[|es| - 1]));
    }
  }

  lemma KeyOnOneLine(name: string)
    requires PlainName(name)
    ensures LineFeeds(Key(name)) == LineFeeds("\"" + name + "\"") == 0
  {
    hide LineFeeds;
    NoLineFeed(name);
    NoLineFeed("\"");
    NoLineFeed("\": ");
    Together3("\"", name, "\": ");
    Together3("\"", name, "\"");
  }

  lemma OpenOnLines(compact: bool)
    ensures LineFeeds("{" + StartEnd(compact)) == if compact then 0 else 1
  {
    hide LineFeeds, StartEnd;
    Separators(compact);
    NoLineFeed("{");
    Together("{", StartEnd(compact));
  }

  lemma TagsOnLines(compact: bool, level: nat, tags: Option<seq<Tag>>)
    ensures LineFeeds(TagsText(compact, level, tags)) ==
      if compact || tags.None? then 0 else 3 + if tags.value == [] then 0 else |tags.value| - 1
  {
    hide LineFeeds, Sep, Pad, Key, StartEnd, EntriesText;
    NoLineFeed("");
    if tags.Some? {
      var key, open := Key("tags"), "{" + StartEnd(compact);
      var items := EntriesText(compact, level + 1, TagEntries(tags.value));
      Separators(compact);
      BlanksOnly(compact, level);
      KeyOnOneLine("tags");
      OpenOnLines(compact);
      EntriesOnLines(compact, level + 1, TagEntries(tags.value));
      Together4(Sep(compact), Pad(compact, level), key, open);
      TagsClosed(compact, level, Sep(compact) + Pad(compact, level) + key + open, items);
    }
  }

  lemma TagsClosed(compact: bool, level: nat, head: string, items: string)
    ensures LineFeeds(head + items + StartEnd(compact) + Pad(compact, level) + "}") ==
            LineFeeds(head) + LineFeeds(items) + if compact then 0 else 1
  {
    hide LineFeeds, Pad, StartEnd;
    Separators(compact);
    BlanksOnly(compact, level);
    NoLineFeed("}");
    Together4(head, items, StartEnd(compact), Pad(compact, level));
    Together(head + items + StartEnd(compact) + Pad(compact, level), "}");
  }

  lemma HeadOnLines(compact: bool, level: nat, multi: bool, typed: bool, name: string)
    requires PlainName(name)
    ensures LineFeeds(SectionHead(compact, level, multi, typed, name)) == if compact then 0 else if typed then 2 else 1
  {
    hide LineFeeds, Sep, Pad, Key, StartEnd, Indent;
    var start := if multi then Indent(level) else Indent(level) + Key(name);
    Separators(compact);
    BlanksOnly(compact, level);
    BlanksOnly(compact, level + 1);
    KeyOnOneLine(name);
    KeyOnOneLine("type");
    OpenOnLines(compact);
    Together(Indent(level), Key(name));
    Together(start, "{" + StartEnd(compact));
    var open := start + ("{" + StartEnd(compact));
    Together4(open, Pad(compact, level + 1), Key("type"), "\"" + name + "\"");
    Together(open + Pad(compact, level + 1) + Key("type") + ("\"" + name + "\""), Sep(compact));
  }

  lemma FootOnLines(compact: bool, level: nat)
    ensures LineFeeds(SectionFoot(compact, level)) == if compact then 0 else 1
  {
    hide LineFeeds, StartEnd, Pad;
    Separators(compact);
    BlanksOnly(compact, level);
    NoLineFeed("}");
    Together3(StartEnd(compact), Pad(compact, level), "}");
  }

  /** Compact output prints a section on a single line, whatever its strings hold.  Other
      output gives the opening and closing brace, the type, each entry and each tag a line. */
  lemma SectionOnLines(compact: bool, level: nat, multi: bool, typed: bool, name: string,
                       es: seq<Entry>, tags: Option<seq<Tag>>)
    requires PlainName(name)
    ensures LineFeeds(SectionText(compact, level, multi, typed, name, es, tags)) ==
      if compact then 0
      else
        2 + (if typed then 1 else 0) + (if es == [] then 0 else |es| - 1) +
        if tags.None? then 0 else 3 + if tags.value == [] then 0 else |tags.value| - 1
  {
    hide LineFeeds, SectionHead, EntriesText, TagsText, SectionFoot;
    HeadOnLines(compact, level, multi, typed, name);
    EntriesOnLines(compact, level + 1, es);
    TagsOnLines(compact, level + 1, tags);
    FootOnLines(compact, level);
    Together4(SectionHead(compact, level, multi, typed, name), EntriesText(compact, level + 1, es),
              TagsText(compact, level + 1, tags), SectionFoot(compact, level));
  }
}
