/** What ffprobe reports, whatever the output format: chapters of sections of entries. */
module ProbeReport {
  import opened Options

  datatype Entry = IntEntry(key: string, number: int) | StrEntry(key: string, text: string, optional: bool)
  datatype Tag = Tag(key: string, text: string)

  /** tags is None for a NULL dictionary. */
  datatype Section = Section(name: string, entries: seq<Entry>, tags: Option<seq<Tag>>)
  datatype Chapter = Chapter(name: string, sections: seq<Section>)
  type Report = seq<Chapter>

  // ---------- Which entries are printed ----------

  /** JSON and XML output drop optional strings; in the "format" chapter only the keys
      chosen by -show_format_entry are kept. */
  predicate IsPrinted(fmt: bool, shown: string -> bool, e: Entry) {
    !(e.StrEntry? && e.optional) && (!fmt || shown(e.key))
  }

  function ValueText(e: Entry): string {
    if e.IntEntry? then IntText(e.number) else e.text
  }

  function Printed(fmt: bool, shown: string -> bool, es: seq<Entry>): (r: seq<Entry>)
    ensures forall e :: e in r <==> e in es && !(e.StrEntry? && e.optional) && (!fmt || shown(e.key))
  {
    if es == [] then []
    else
      var init, last := es[..|es| - 1], es[|es| - 1];
      assert es == init + [last];
      Printed(fmt, shown, init) + (if IsPrinted(fmt, shown, last) then [last] else [])
  }

  /** Printing keeps the order and the number of the entries: those that are printed are the
      ones that are not optional strings, in the "format" chapter if they are chosen. */
  lemma PrintedInOrder(fmt: bool, shown: string -> bool, es: seq<Entry>, i: nat)
    requires i < |es|
    ensures Printed(fmt, shown, []) == []
    ensures Printed(fmt, shown, es[..i + 1]) == Printed(fmt, shown, es[..i]) +
      if (es[i].IntEntry? || !es[i].optional) && (fmt ==> shown(es[i].key)) then [es[i]] else []
  {
    PrintedStep(fmt, shown, es, i);
  }

  lemma PrintedStep(fmt: bool, shown: string -> bool, es: seq<Entry>, i: nat)
    requires i < |es|
    ensures Printed(fmt, shown, es[..i + 1]) ==
      Printed(fmt, shown, es[..i]) + if IsPrinted(fmt, shown, es[i]) then [es[i]] else []
  {
    assert es[..i + 1][..i] == es[..i];
  }

  predicate IsMulti(name: string) {
    name == "packets" || name == "frames" || name == "packets_and_frames" ||
    name == "streams" || name == "library_versions"
  }

  /** The chapters that main and probe_file print: a list of packets, frames, streams or
      libraries with any number of sections, or a record with the one section of the same
      name. */
  predicate IsList(name: string) {
    name in {"packets", "frames", "packets_and_frames", "streams", "library_versions"}
  }

  predicate IsRecord(ch: Chapter) {
    ch.name in {"format", "error", "program_version"} && |ch.sections| == 1 && ch.sections[0].name == ch.name
  }

  /** JSON_INDENT and XML_INDENT: a space padded to four columns a level, and at least one space. */
  function Indent(level: nat): string {
    seq(if level == 0 then 1 else 4 * level, _ => ' ')
  }

  // ---------- Integers as text ----------

  function Digit(d: nat): char
    requires d < 16
  {
    "0123456789abcdef"[d]
  }

  function NatText(n: nat): (s: string)
    ensures s != ""
  {
    if n < 10 then [Digit(n)] else NatText(n / 10) + [Digit(n % 10)]
  }

  /** %lld. */
  function IntText(v: int): string {
    if v < 0 then "-" + NatText(-v) else NatText(v)
  }

  predicate IsDigit(c: char) {
    '0' <= c <= '9'
  }

  function DigitRun(s: string): (n: nat)
    ensures n <= |s|
  {
    if s != "" && IsDigit(s[0]) then 1 + DigitRun(s[1..]) else 0
  }

  /** The number a decimal numeral denotes. */
  function NumeralValue(s: string): (v: int) {
    if s != "" && s[0] == '-' then -DigitsValue(s[1..]) else DigitsValue(s)
  }

  function DigitsValue(s: string): (v: int) {
    if s == "" then 0 else 10 * DigitsValue(s[..|s| - 1]) + (s[|s| - 1] as int - '0' as int)
  }

  lemma {:induction false} NatTextReads(n: nat)
    ensures DigitsValue(NatText(n)) == n && DigitRun(NatText(n)) == |NatText(n)|
    ensures NatText(n)[0] == '0' ==> n == 0 && |NatText(n)| == 1
  {
    if n < 10 {
      DecimalDigit(n);
      assert NatText(n)[..0] == "" && NatText(n)[1..] == "";
    } else {
      NatTextReads(n / 10);
      var s, d := NatText(n / 10), Digit(n % 10);
      assert (s + [d])[..|s + [d]| - 1] == s;
      DecimalDigit(n % 10);
      DigitRunConcat(s, [d]);
      assert [d][1..] == "";
    }
  }

  lemma DecimalDigit(d: nat)
    requires d < 10
    ensures IsDigit(Digit(d)) && Digit(d) as int - '0' as int == d
  {
    assert d in {0, 1, 2, 3, 4, 5, 6, 7, 8, 9};
  }

  lemma {:induction false} DigitRunConcat(a: string, b: string)
    requires DigitRun(a) == |a|
    ensures DigitRun(a + b) == |a| + DigitRun(b)
  {
    if a == "" {
      assert a + b == b;
    } else {
      assert (a + b)[1..] == a[1..] + b;
      DigitRunConcat(a[1..], b);
    }
  }

  /** A printed integer denotes that integer. */
  lemma IntTextReads(v: int)
    ensures NumeralValue(IntText(v)) == v
  {
    hide NatText, DigitsValue;
    if v < 0 {
      NatTextReads(-v);
      assert IntText(v)[1..] == NatText(-v);
    } else {
      NatTextReads(v);
      assert IsDigit(NatText(v)[0]);
    }
  }

  /** Concatenation is associative. */
  lemma Glue(a: string, b: string, c: string)
    ensures (a + b) + c == a + (b + c)
  {
  }

  lemma Glue3(a: string, b: string, c: string, d: string)
    ensures a + b + c + d == a + (b + c + d)
  {
  }
}
