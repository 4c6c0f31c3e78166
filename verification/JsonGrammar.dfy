/** A reference reader for JSON text (RFC 4627), written independently of the writer it
    is used to check: a lexer for sections 2 and 2.5, then a parser for sections 2.1 to
    2.4 over the tokens.  Text is a sequence of bytes; a \u escape is decoded only when
    it names an ASCII character, and is refused otherwise. */
module JsonGrammar {

  import opened Options
  import opened ProbeReport

  datatype Member = Member(name: string, value: Json)
  datatype Json =
    | JString(text: string)
    | JNumber(lexeme: string)
    | JObject(members: seq<Member>)
    | JArray(elements: seq<Json>)
    | JTrue
    | JFalse
    | JNull

  datatype Token =
    | LBrace | RBrace | LBracket | RBracket | Colon | Comma
    | Text(text: string) | Number(lexeme: string) | Literal(value: Json)

  // ---------- Section 2.5: strings ----------

  function HexValue(c: char): Option<nat> {
    if '0' <= c <= '9' then Some((c - '0') as nat)
    else if 'a' <= c <= 'f' then Some((c - 'a') as nat + 10)
    else if 'A' <= c <= 'F' then Some((c - 'A') as nat + 10)
    else None
  }

  function Unescape(c: char): Option<char> {
    match c
    case '"' => Some('"')
    case '\\' => Some('\\')
    case '/' => Some('/')
    case 'b' => Some(8 as char)
    case 'f' => Some(12 as char)
    case 'n' => Some(10 as char)
    case 'r' => Some(13 as char)
    case 't' => Some(9 as char)
    case _ => None
  }

  /** The four hexadecimal digits of a \u escape that names an ASCII character. */
  function UnicodeEscape(s: string): Option<char>
    requires |s| >= 4
  {
    match (HexValue(s[0]), HexValue(s[1]), HexValue(s[2]), HexValue(s[3]))
    case (Some(a), Some(b), Some(c), Some(d)) =>
      if a == 0 && b == 0 && c < 8 then Some((16 * c + d) as char) else None
    case _ => None
  }

  datatype Scan = Scan(text: string, rest: string)

  function ConsScan(c: char, r: Option<Scan>): Option<Scan> {
    match r
    case Some(scan) => Some(Scan([c] + scan.text, scan.rest))
    case None => None
  }

  /** The characters of a string after its opening quotation mark, and what follows the
      closing one. */
  function ScanString(s: string): (r: Option<Scan>)
    ensures r.Some? ==> |r.value.rest| < |s|
  {
    if s == "" then None
    else if s[0] == '"' then Some(Scan("", s[1..]))
    else if s[0] == '\\' then
      if |s| >= 6 && s[1] == 'u' then
        match UnicodeEscape(s[2..])
        case Some(c) => ConsScan(c, ScanString(s[6..]))
        case None => None
      else if |s| >= 2 then
        match Unescape(s[1])
        case Some(c) => ConsScan(c, ScanString(s[2..]))
        case None => None
      else None
    else if s[0] < ' ' then None
    else ConsScan(s[0], ScanString(s[1..]))
  }

  // ---------- Section 2.4: numbers ----------

  function IntLength(s: string): (n: nat)
    ensures n <= |s|
  {
    if s != "" && s[0] == '0' then 1 else DigitRun(s)
  }

  function FracLength(s: string): (n: nat)
    ensures n <= |s|
  {
    if s != "" && s[0] == '.' && DigitRun(s[1..]) > 0 then 1 + DigitRun(s[1..]) else 0
  }

  function ExpLength(s: string): (n: nat)
    ensures n <= |s|
  {
    if s == "" || (s[0] != 'e' && s[0] != 'E') then 0
    else
      var sign := if |s| > 1 && (s[1] == '+' || s[1] == '-') then 1 else 0;
      var rest := s[1 + sign..];
      var digits := DigitRun(rest);
      if digits > 0 then 1 + sign + digits else 0
  }

  /** Length of the longest number at the start of s, 0 if there is none. */
  function NumberLength(s: string): (n: nat)
    ensures n <= |s|
  {
    var sign := if s != "" && s[0] == '-' then 1 else 0;
    var unsigned := s[sign..];
    var digits := IntLength(unsigned);
    if digits == 0 then 0
    else
      var frac := FracLength(unsigned[digits..]);
      sign + digits + frac + ExpLength(unsigned[digits + frac..])
  }

  // ---------- Section 2: tokens ----------

  predicate IsSpace(c: char) {
    c == ' ' || c == '\t' || c == '\n' || c == '\r'
  }

  function Structural(c: char): Option<Token> {
    match c
    case '{' => Some(LBrace)
    case '}' => Some(RBrace)
    case '[' => Some(LBracket)
    case ']' => Some(RBracket)
    case ':' => Some(Colon)
    case ',' => Some(Comma)
    case _ => None
  }

  function Prepend(ts: seq<Token>, r: Option<seq<Token>>): Option<seq<Token>> {
    match r
    case Some(us) => Some(ts + us)
    case None => None
  }

  function Lex(s: string): Option<seq<Token>>
    decreases |s|
  {
    if s == "" then Some([])
    else if IsSpace(s[0]) then Lex(s[1..])
    else if Structural(s[0]).Some? then Prepend([Structural(s[0]).value], Lex(s[1..]))
    else if s[0] == '"' then
      match ScanString(s[1..])
      case Some(scan) => Prepend([Text(scan.text)], Lex(scan.rest))
      case None => None
    else if NumberLength(s) > 0 then Prepend([Number(s[..NumberLength(s)])], Lex(s[NumberLength(s)..]))
    else if "true" <= s then Prepend([Literal(JTrue)], Lex(s[4..]))
    else if "false" <= s then Prepend([Literal(JFalse)], Lex(s[5..]))
    else if "null" <= s then Prepend([Literal(JNull)], Lex(s[4..]))
    else None
  }

  // ---------- Sections 2.1 to 2.3: values, objects, arrays ----------

  datatype Parsed<+T> = Reject | Accept(value: T, rest: seq<Token>)

  function ParseValue(ts: seq<Token>): (r: Parsed<Json>)
    ensures r.Accept? ==> |r.rest| < |ts|
    decreases |ts|, 0
  {
    if ts == [] then Reject
    else match ts[0]
      case Text(s) => Accept(JString(s), ts[1..])
      case Number(s) => Accept(JNumber(s), ts[1..])
      case Literal(v) => Accept(v, ts[1..])
      case LBrace =>
        if |ts| > 1 && ts[1] == RBrace then Accept(JObject([]), ts[2..])
        else (match ParseMembers(ts[1..])
              case Accept(ms, rest) => Accept(JObject(ms), rest)
              case Reject => Reject)
      case LBracket =>
        if |ts| > 1 && ts[1] == RBracket then Accept(JArray([]), ts[2..])
        else (match ParseElements(ts[1..])
              case Accept(es, rest) => Accept(JArray(es), rest)
              case Reject => Reject)
      case _ => Reject
  }

  /** One or more members, and the closing brace. */
  function ParseMembers(ts: seq<Token>): (r: Parsed<seq<Member>>)
    ensures r.Accept? ==> |r.rest| < |ts|
    decreases |ts|, 1
  {
    if |ts| < 2 || !ts[0].Text? || ts[1] != Colon then Reject
    else match ParseValue(ts[2..])
      case Reject => Reject
      case Accept(v, rest) =>
        var m := Member(ts[0].text, v);
        if rest == [] then Reject
        else if rest[0] == RBrace then Accept([m], rest[1..])
        else if rest[0] != Comma then Reject
        else match ParseMembers(rest[1..])
          case Accept(ms, rest') => Accept([m] + ms, rest')
          case Reject => Reject
  }

  /** One or more values, and the closing bracket. */
  function ParseElements(ts: seq<Token>): (r: Parsed<seq<Json>>)
    ensures r.Accept? ==> |r.rest| < |ts|
    decreases |ts|, 1
  {
    match ParseValue(ts)
    case Reject => Reject
    case Accept(v, rest) =>
      if rest == [] then Reject
      else if rest[0] == RBracket then Accept([v], rest[1..])
      else if rest[0] != Comma then Reject
      else match ParseElements(rest[1..])
        case Accept(vs, rest') => Accept([v] + vs, rest')
        case Reject => Reject
  }

  /** A JSON text is one object or array. */
  function Parse(s: string): Option<Json> {
    match Lex(s)
    case None => None
    case Some(ts) =>
      match ParseValue(ts)
      case Accept(v, rest) => if rest == [] && (v.JObject? || v.JArray?) then Some(v) else None
      case Reject => None
  }

  // ---------- The tokens of a value, and the parser on them ----------

  function ValueTokens(j: Json): (ts: seq<Token>)
    ensures ts != []
    decreases j
  {
    match j
    case JString(s) => [Text(s)]
    case JNumber(s) => [Number(s)]
    case JObject(ms) => [LBrace] + MembersTokens(ms) + [RBrace]
    case JArray(es) => [LBracket] + ElementsTokens(es) + [RBracket]
    case _ => [Literal(j)]
  }

  function MembersTokens(ms: seq<Member>): seq<Token>
    decreases ms
  {
    if ms == [] then []
    else [Text(ms[0].name), Colon] + (ValueTokens(ms[0].value) +
         (if |ms| == 1 then [] else [Comma] + MembersTokens(ms[1..])))
  }

  function ElementsTokens(es: seq<Json>): seq<Token>
    decreases es
  {
    if es == [] then []
    else ValueTokens(es[0]) + (if |es| == 1 then [] else [Comma] + ElementsTokens(es[1..]))
  }

  lemma Regroup(a: seq<Token>, b: seq<Token>, c: seq<Token>)
    ensures (a + b) + c == a + (b + c)
  {
  }

  /** Parsing the tokens of any value gives the value back and stops at its end. */
  lemma {:induction false} ParseInvertsTokens(j: Json, rest: seq<Token>)
    ensures ParseValue(ValueTokens(j) + rest) == Accept(j, rest)
    decreases j
  {
    match j
    case JObject(ms) =>
      hide ParseMembers, ParseElements, MembersTokens, ElementsTokens;
      FirstName(ms);
      Around([LBrace], MembersTokens(ms), [RBrace], rest);
      if ms != [] { ParseInvertsMembers(ms, rest); }
    case JArray(es) =>
      hide ParseMembers, ParseElements, MembersTokens, ElementsTokens;
      FirstToken(es);
      Around([LBracket], ElementsTokens(es), [RBracket], rest);
      if es != [] { ParseInvertsElements(es, rest); }
    case _ =>
  }

  lemma Around(open: seq<Token>, inner: seq<Token>, close: seq<Token>, rest: seq<Token>)
    requires |open| == 1
    ensures open + inner + close + rest == open + (inner + (close + rest))
    ensures (open + (inner + (close + rest)))[1..] == inner + (close + rest)
    ensures inner == [] && |close| == 1 ==> (open + (inner + (close + rest)))[2..] == rest
  {
  }

  lemma FirstName(ms: seq<Member>)
    ensures if ms == [] then MembersTokens(ms) == [] else MembersTokens(ms) != [] && MembersTokens(ms)[0].Text?
  {
  }

  /** No value starts with a closing bracket. */
  lemma FirstToken(es: seq<Json>)
    ensures if es == [] then ElementsTokens(es) == [] else ElementsTokens(es) != [] && ElementsTokens(es)[0] != RBracket
  {
    if es != [] { assert ValueTokens(es[0])[0] != RBracket; }
  }

  /** The list so far, then the rest of the input: how the parser sees it. */
  lemma MembersStep(ms: seq<Member>, rest: seq<Token>)
    requires ms != []
    ensures var ts := MembersTokens(ms) + rest;
            var after := if |ms| == 1 then rest else [Comma] + (MembersTokens(ms[1..]) + rest);
            |ts| >= 2 && ts[0] == Text(ms[0].name) && ts[1] == Colon && ts[2..] == ValueTokens(ms[0].value) + after
  {
    var v := ValueTokens(ms[0].value);
    var more := if |ms| == 1 then [] else [Comma] + MembersTokens(ms[1..]);
    Regroup([Text(ms[0].name), Colon], v + more, rest);
    Regroup(v, more, rest);
    if |ms| > 1 { Regroup([Comma], MembersTokens(ms[1..]), rest); }
  }

  lemma ElementsStep(es: seq<Json>, rest: seq<Token>)
    requires es != []
    ensures var after := if |es| == 1 then rest else [Comma] + (ElementsTokens(es[1..]) + rest);
            ElementsTokens(es) + rest == ValueTokens(es[0]) + after
  {
    var more := if |es| == 1 then [] else [Comma] + ElementsTokens(es[1..]);
    Regroup(ValueTokens(es[0]), more, rest);
    if |es| > 1 { Regroup([Comma], ElementsTokens(es[1..]), rest); }
  }

  lemma {:induction false} ParseInvertsMembers(ms: seq<Member>, rest: seq<Token>)
    requires ms != []
    ensures ParseMembers(MembersTokens(ms) + ([RBrace] + rest)) == Accept(ms, rest)
    decreases ms
  {
    hide ParseValue, ValueTokens, MembersTokens;
    var end := [RBrace] + rest;
    MembersStep(ms, end);
    if |ms| == 1 {
      ParseInvertsTokens(ms[0].value, end);
      assert end[1..] == rest && [ms[0]] == ms;
    } else {
      var after := [Comma] + (MembersTokens(ms[1..]) + end);
      ParseInvertsTokens(ms[0].value, after);
      assert after[1..] == MembersTokens(ms[1..]) + end;
      ParseInvertsMembers(ms[1..], rest);
      assert [ms[0]] + ms[1..] == ms;
    }
  }

  lemma {:induction false} ParseInvertsElements(es: seq<Json>, rest: seq<Token>)
    requires es != []
    ensures ParseElements(ElementsTokens(es) + ([RBracket] + rest)) == Accept(es, rest)
    decreases es
  {
    hide ParseValue, ValueTokens, ElementsTokens;
    var end := [RBracket] + rest;
    ElementsStep(es, end);
    if |es| == 1 {
      ParseInvertsTokens(es[0], end);
      assert end[1..] == rest && [es[0]] == es;
    } else {
      var after := [Comma] + (ElementsTokens(es[1..]) + end);
      ParseInvertsTokens(es[0], after);
      assert after[1..] == ElementsTokens(es[1..]) + end;
      ParseInvertsElements(es[1..], rest);
      assert [es[0]] + es[1..] == es;
    }
  }

  /** After a list of members and a comma, a rejected tail rejects the whole list. */
  lemma {:induction false} MembersThenReject(ms: seq<Member>, tail: seq<Token>)
    requires ms != [] && ParseMembers(tail) == Reject
    ensures ParseMembers(MembersTokens(ms) + ([Comma] + tail)) == Reject
    decreases ms
  {
    var end := [Comma] + tail;
    MembersStep(ms, end);
    if |ms| == 1 {
      ParseInvertsTokens(ms[0].value, end);
      assert end[1..] == tail;
    } else {
      var after := [Comma] + (MembersTokens(ms[1..]) + end);
      ParseInvertsTokens(ms[0].value, after);
      assert after[1..] == MembersTokens(ms[1..]) + end;
      MembersThenReject(ms[1..], tail);
    }
  }

  lemma {:induction false} ElementsThenReject(es: seq<Json>, tail: seq<Token>)
    requires es != [] && ParseElements(tail) == Reject
    ensures ParseElements(ElementsTokens(es) + ([Comma] + tail)) == Reject
    decreases es
  {
    var end := [Comma] + tail;
    ElementsStep(es, end);
    if |es| == 1 {
      ParseInvertsTokens(es[0], end);
      assert end[1..] == tail;
    } else {
      var after := [Comma] + (ElementsTokens(es[1..]) + end);
      ParseInvertsTokens(es[0], after);
      assert after[1..] == ElementsTokens(es[1..]) + end;
      ElementsThenReject(es[1..], tail);
    }
  }

  lemma {:induction false} MembersConcat(a: seq<Member>, b: seq<Member>)
    requires a != [] && b != []
    ensures MembersTokens(a + b) == MembersTokens(a) + ([Comma] + MembersTokens(b))
    decreases a
  {
    hide ValueTokens, MembersTokens;
    var tail := [Comma] + MembersTokens(b);
    MembersUnfold(a + b);
    MembersUnfold(a);
    if |a| > 1 {
      assert (a + b)[1..] == a[1..] + b;
      MembersConcat(a[1..], b);
      Regroup([Comma], MembersTokens(a[1..]), tail);
      Regroup(MemberTokens(a[0]), [Comma] + MembersTokens(a[1..]), tail);
    } else {
      assert (a + b)[1..] == b;
    }
  }

  /** The tokens of one member. */
  function MemberTokens(m: Member): seq<Token> {
    [Text(m.name), Colon] + ValueTokens(m.value)
  }

  lemma MembersUnfold(ms: seq<Member>)
    requires ms != []
    ensures MembersTokens(ms) ==
      if |ms| == 1 then MemberTokens(ms[0]) else MemberTokens(ms[0]) + ([Comma] + MembersTokens(ms[1..]))
  {
    hide ValueTokens;
    var more := if |ms| == 1 then [] else [Comma] + MembersTokens(ms[1..]);
    Regroup([Text(ms[0].name), Colon], ValueTokens(ms[0].value), more);
    assert ValueTokens(ms[0].value) + [] == ValueTokens(ms[0].value);
  }

  lemma {:induction false} ElementsConcat(a: seq<Json>, b: seq<Json>)
    requires a != [] && b != []
    ensures ElementsTokens(a + b) == ElementsTokens(a) + ([Comma] + ElementsTokens(b))
    decreases a
  {
    hide ValueTokens, ElementsTokens;
    var tail := [Comma] + ElementsTokens(b);
    ElementsUnfold(a + b);
    ElementsUnfold(a);
    if |a| > 1 {
      assert (a + b)[1..] == a[1..] + b;
      ElementsConcat(a[1..], b);
      Regroup([Comma], ElementsTokens(a[1..]), tail);
      Regroup(ValueTokens(a[0]), [Comma] + ElementsTokens(a[1..]), tail);
    } else {
      assert (a + b)[1..] == b;
    }
  }

  lemma ElementsUnfold(es: seq<Json>)
    requires es != []
    ensures |es| == 1 ==> ElementsTokens(es) == ValueTokens(es[0])
    ensures |es| > 1 ==> ElementsTokens(es) == ValueTokens(es[0]) + ([Comma] + ElementsTokens(es[1..]))
  {
  }
}
