/** A reference reader for the XML that ffprobe writes (XML 1.0): tags with attributes
    (sections 3 and 3.1), the predefined entities (section 4.6), the legal characters
    (section 2.2) and the white-space normalisation of attribute values (section 3.3.3).
    Content other than elements and white space, comments and processing instructions
    are refused. */
module XmlGrammar {
  import opened Options

  datatype Attr = Attr(name: string, value: string)
  datatype Element = Element(name: string, attrs: seq<Attr>, children: seq<Element>)

  /** One tag; empty is the <name .../> form. */
  datatype Token = StartTag(name: string, attrs: seq<Attr>, empty: bool) | EndTag(name: string)

  // ---------- Characters and names ----------

  predicate IsSpace(c: char) {
    c == ' ' || c == '\t' || c == '\n' || c == '\r'
  }

  predicate LegalChar(c: char) {
    (c >= ' ' && c != '\U{FFFE}' && c != '\U{FFFF}') || c == '\t' || c == '\n' || c == '\r'
  }

  predicate NameStart(c: char) {
    'a' <= c <= 'z' || 'A' <= c <= 'Z' || c == '_' || c == ':'
  }

  predicate NameChar(c: char) {
    NameStart(c) || '0' <= c <= '9' || c == '-' || c == '.'
  }

  predicate IsName(s: string) {
    s != "" && NameStart(s[0]) && forall i :: 0 <= i < |s| ==> NameChar(s[i])
  }

  function NameRun(s: string): (n: nat)
    ensures n <= |s|
  {
    if s != "" && NameChar(s[0]) then 1 + NameRun(s[1..]) else 0
  }

  /** Length of the name at the start of s, 0 if there is none. */
  function NameLength(s: string): (n: nat)
    ensures n <= |s|
  {
    if s != "" && NameStart(s[0]) then NameRun(s) else 0
  }

  function SpaceRun(s: string): (n: nat)
    ensures n <= |s|
  {
    if s != "" && IsSpace(s[0]) then 1 + SpaceRun(s[1..]) else 0
  }

  // ---------- Attribute values ----------

  datatype Scan = Scan(text: string, rest: string)

  function ConsScan(c: char, r: Option<Scan>): Option<Scan> {
    match r
    case Some(scan) => Some(Scan([c] + scan.text, scan.rest))
    case None => None
  }

  /** A literal character of a value: white space becomes a space. */
  function Normal(c: char): char {
    if IsSpace(c) then ' ' else c
  }

  /** The value after its opening quotation mark, and what follows the closing one. */
  function ScanValue(s: string): (r: Option<Scan>)
    ensures r.Some? ==> |r.value.rest| < |s|
  {
    if s == "" then None
    else if s[0] == '"' then Some(Scan("", s[1..]))
    else if s[0] == '<' || !LegalChar(s[0]) then None
    else if s[0] == '&' then
      if "&amp;" <= s then ConsScan('&', ScanValue(s[5..]))
      else if "&lt;" <= s then ConsScan('<', ScanValue(s[4..]))
      else if "&gt;" <= s then ConsScan('>', ScanValue(s[4..]))
      else if "&quot;" <= s then ConsScan('"', ScanValue(s[6..]))
      else if "&apos;" <= s then ConsScan('\'', ScanValue(s[6..]))
      else None
    else ConsScan(Normal(s[0]), ScanValue(s[1..]))
  }

  // ---------- Tags ----------

  /** The end of a start tag: its attributes, whether it is an empty-element tag, and what
      follows. */
  datatype TagEnd = TagEnd(attrs: seq<Attr>, empty: bool, rest: string)

  function ConsAttr(a: Attr, r: Option<TagEnd>): Option<TagEnd> {
    match r
    case Some(end) => Some(end.(attrs := [a] + end.attrs))
    case None => None
  }

  /** White space, then an attribute or the end of the tag. */
  function ScanAttrs(s: string): (r: Option<TagEnd>)
    ensures r.Some? ==> |r.value.rest| < |s|
    decreases |s|
  {
    var k := SpaceRun(s);
    var t := s[k..];
    if ">" <= t then Some(TagEnd([], false, t[1..]))
    else if "/>" <= t then Some(TagEnd([], true, t[2..]))
    else
      var n := NameLength(t);
      if k == 0 || n == 0 || !("=\"" <= t[n..]) then None
      else
        match ScanValue(t[n + 2..])
        case Some(scan) => ConsAttr(Attr(t[..n], scan.text), ScanAttrs(scan.rest))
        case None => None
  }

  /** No attribute name appears twice in one tag. */
  predicate Distinct(attrs: seq<Attr>) {
    forall i, j :: 0 <= i < j < |attrs| ==> attrs[i].name != attrs[j].name
  }

  function Prepend(ts: seq<Token>, r: Option<seq<Token>>): Option<seq<Token>> {
    match r
    case Some(us) => Some(ts + us)
    case None => None
  }

  /** The tags of a text, with white space between them. */
  function Lex(s: string): Option<seq<Token>>
    decreases |s|
  {
    if s == "" then Some([])
    else if IsSpace(s[0]) then Lex(s[1..])
    else if "</" <= s then
      var n := NameLength(s[2..]);
      if n == 0 || !(">" <= s[2 + n..]) then None
      else Prepend([EndTag(s[2..2 + n])], Lex(s[2 + n + 1..]))
    else if s[0] == '<' then
      var n := NameLength(s[1..]);
      if n == 0 then None
      else
        match ScanAttrs(s[1 + n..])
        case Some(end) =>
          if Distinct(end.attrs) then Prepend([StartTag(s[1..1 + n], end.attrs, end.empty)], Lex(end.rest)) else None
        case None => None
    else None
  }

  // ---------- Elements ----------

  datatype Parsed<+T> = Reject | Accept(value: T, rest: seq<Token>)

  function ParseElement(ts: seq<Token>): (r: Parsed<Element>)
    ensures r.Accept? ==> |r.rest| < |ts|
    decreases |ts|, 0
  {
    if ts == [] || ts[0].EndTag? then Reject
    else if ts[0].empty then Accept(Element(ts[0].name, ts[0].attrs, []), ts[1..])
    else
      match ParseContent(ts[1..])
      case Reject => Reject
      case Accept(children, rest) =>
        // the element type match of section 3
        if rest != [] && rest[0] == EndTag(ts[0].name)
        then Accept(Element(ts[0].name, ts[0].attrs, children), rest[1..])
        else Reject
  }

  /** Elements up to an end tag. */
  function ParseContent(ts: seq<Token>): (r: Parsed<seq<Element>>)
    ensures r.Accept? ==> |r.rest| <= |ts|
    decreases |ts|, 1
  {
    if ts == [] || ts[0].EndTag? then Accept([], ts)
    else
      match ParseElement(ts)
      case Reject => Reject
      case Accept(e, rest) =>
        match ParseContent(rest)
        case Reject => Reject
        case Accept(es, rest') => Accept([e] + es, rest')
  }

  const XML_DECLARATION: string := "<?xml version=\"1.0\" encoding=\"UTF-8\"?>"

  /** A document: this declaration, then one element. */
  function Parse(s: string): Option<Element> {
    if !(XML_DECLARATION <= s) then None
    else
      match Lex(s[|XML_DECLARATION|..])
      case None => None
      case Some(ts) =>
        match ParseElement(ts)
        case Accept(e, rest) => if rest == [] then Some(e) else None
        case Reject => None
  }

  // ---------- The tags of an element, and the parser on them ----------

  /** An element without children may be written in either form. */
  datatype Written = Written(name: string, attrs: seq<Attr>, empty: bool, children: seq<Written>) {
    predicate Valid() {
      (empty ==> children == []) && forall i :: 0 <= i < |children| ==> children[i].Valid()
    }

    function Tree(): Element {
      Element(name, attrs, seq(|children|, i requires 0 <= i < |children| => children[i].Tree()))
    }

    function Tokens(): seq<Token> {
      if empty then [StartTag(name, attrs, true)]
      else [StartTag(name, attrs, false)] + ContentTokens(children) + [EndTag(name)]
    }
  }

  function ContentTokens(ws: seq<Written>): seq<Token> {
    if ws == [] then [] else ws[0].Tokens() + ContentTokens(ws[1..])
  }

  function Trees(ws: seq<Written>): seq<Element> {
    seq(|ws|, i requires 0 <= i < |ws| => ws[i].Tree())
  }

  lemma {:induction false} ParseInvertsTokens(w: Written, rest: seq<Token>)
    requires w.Valid()
    ensures ParseElement(w.Tokens() + rest) == Accept(w.Tree(), rest)
    decreases w
  {
    if w.empty {
      assert ([StartTag(w.name, w.attrs, true)] + rest)[1..] == rest;
      assert w.Tree().children == [];
    } else {
      var ts := [StartTag(w.name, w.attrs, false)] + (ContentTokens(w.children) + ([EndTag(w.name)] + rest));
      assert w.Tokens() + rest == ts;
      assert ts[1..] == ContentTokens(w.children) + ([EndTag(w.name)] + rest);
      ParseInvertsContent(w.children, w.name, rest);
      assert w.Tree().children == Trees(w.children);
      assert ([EndTag(w.name)] + rest)[1..] == rest;
    }
  }

  lemma {:induction false} ParseInvertsContent(ws: seq<Written>, name: string, rest: seq<Token>)
    requires forall i :: 0 <= i < |ws| ==> ws[i].Valid()
    ensures ParseContent(ContentTokens(ws) + ([EndTag(name)] + rest)) == Accept(Trees(ws), [EndTag(name)] + rest)
    decreases ws
  {
    var end := [EndTag(name)] + rest;
    if ws == [] {
      assert ContentTokens(ws) + end == end;
    } else {
      var more := ContentTokens(ws[1..]) + end;
      assert ContentTokens(ws) + end == ws[0].Tokens() + more;
      ParseInvertsTokens(ws[0], more);
      ParseInvertsContent(ws[1..], name, rest);
      StartsWithTag(ws[0], more);
      assert [ws[0].Tree()] + Trees(ws[1..]) == Trees(ws);
    }
  }

  lemma StartsWithTag(w: Written, more: seq<Token>)
    ensures w.Tokens() + more != [] && (w.Tokens() + more)[0].StartTag?
  {
  }
}
