/** Standalone serialization: inherited namespace declarations are escaped and
    spliced into the text of a start tag, which must parse back to them. */
module StartTag {
  import opened Prelude
  import opened Arena

  // ------------------------------------------------------------------
  // Attribute values (section 3.3.3 of XML 1.0)
  // ------------------------------------------------------------------

  predicate Ws(c: char) { c == ' ' || c == '\t' || c == '\n' || c == '\r' }

  predicate Quote(c: char) { c == '"' || c == '\'' }

  /** Characters of a name: anything that delimits no other token of a tag. */
  predicate NameChar(c: char) { !Ws(c) && !Quote(c) && c !in "=<>/&;" }

  function EscapeChar(c: char): string {
    match c
    case '&' => "&amp;"
    case '"' => "&quot;"
    case '<' => "&lt;"
    case '\t' => "&#9;"
    case '\n' => "&#10;"
    case '\r' => "&#13;"
    case _ => [c]
  }

  function Escape(v: string): string {
    if v == "" then "" else EscapeChar(v[0]) + Escape(v[1..])
  }

  function Digits(s: string, base: nat): Option<nat>
    requires base == 10 || base == 16
  {
    if s == "" then None
    else
      var last := s[|s| - 1];
      var d := if '0' <= last <= '9' then Some((last - '0') as nat)
               else if base == 16 && 'a' <= last <= 'f' then Some((last - 'a') as nat + 10)
               else if base == 16 && 'A' <= last <= 'F' then Some((last - 'A') as nat + 10)
               else None;
      if d.None? then None
      else if |s| == 1 then d
      else match Digits(s[..|s| - 1], base)
           case None => None
           case Some(n) => Some(n * base + d.value)
  }

  predicate XmlChar(n: nat) {
    n == 9 || n == 10 || n == 13 || 0x20 <= n <= 0xD7FF || 0xE000 <= n <= 0xFFFD || 0x10000 <= n <= 0x10FFFF
  }

  /** The character that a reference `&name;` stands for. */
  function Reference(name: string): Option<char> {
    if name == "amp" then Some('&')
    else if name == "lt" then Some('<')
    else if name == "gt" then Some('>')
    else if name == "quot" then Some('"')
    else if name == "apos" then Some('\'')
    else if |name| > 1 && name[0] == '#' then
      var n := if name[1] == 'x' then Digits(name[2..], 16) else Digits(name[1..], 10);
      if n.Some? && XmlChar(n.value) then Some(n.value as char) else None
    else None
  }

  /** Normalize a raw value: references are replaced, literal white space becomes
      a space. `None` for a raw value that is not well-formed. */
  function Normalize(raw: string): Option<string> {
    if raw == "" then Some("")
    else if raw[0] == '<' then None
    else if raw[0] == '&' then
      var n := IndexOf(raw, ';');
      if n == |raw| then None
      else
        var c, rest := Reference(raw[1..n]), Normalize(raw[n + 1..]);
        if c.Some? && rest.Some? then Some([c.value] + rest.value) else None
    else
      var rest := Normalize(raw[1..]);
      if rest.Some? then Some([if Ws(raw[0]) then ' ' else raw[0]] + rest.value) else None
  }

  function EscapeName(c: char): string {
    match c
    case '&' => "amp"
    case '"' => "quot"
    case '<' => "lt"
    case '\t' => "#9"
    case '\n' => "#10"
    case '\r' => "#13"
    case _ => ""
  }

  lemma {:induction false} EscapeReference(c: char)
    requires EscapeName(c) != ""
    ensures EscapeChar(c) == "&" + (EscapeName(c) + (";" + ""))
    ensures ';' !in EscapeName(c) && Reference(EscapeName(c)) == Some(c)
  {
    assert "#9"[1..] == "9" && "#10"[1..] == "10" && "#13"[1..] == "13";
    assert "10"[..1] == "1" && "13"[..1] == "1";
    assert Digits("1", 10) == Some(1) && Digits("9", 10) == Some(9);
    assert Digits("10", 10) == Some(10) && Digits("13", 10) == Some(13);
  }

  lemma {:induction false} NormalizeReference(raw: string, n: nat, c: char)
    requires raw != "" && raw[0] == '&' && IndexOf(raw, ';') == n < |raw| && n > 0
    requires Reference(raw[1..n]) == Some(c) && Normalize(raw[n + 1..]).Some?
    ensures Normalize(raw) == Some([c] + Normalize(raw[n + 1..]).value)
  {
  }

  function ReferenceThen(name: string, tail: string): string {
    "&" + (name + (";" + tail))
  }

  lemma {:induction false} ReferenceShape(name: string, tail: string)
    requires ';' !in name
    ensures var raw := ReferenceThen(name, tail);
      && |raw| > |name| + 1 && raw[0] == '&' && IndexOf(raw, ';') == |name| + 1
      && raw[1..|name| + 1] == name && raw[|name| + 2..] == tail
  {
    IndexAfter("&" + name, ';', tail);
    assert ReferenceThen(name, tail) == "&" + name + ([';'] + tail);
  }

  lemma {:induction false} EscapeShape(c: char, tail: string)
    requires EscapeName(c) != ""
    ensures EscapeChar(c) + tail == ReferenceThen(EscapeName(c), tail)
  {
    EscapeReference(c);
  }

  lemma {:induction false} EscapedChar(c: char, tail: string)
    requires Normalize(tail).Some?
    ensures Normalize(EscapeChar(c) + tail) == Some([c] + Normalize(tail).value)
  {
    var name := EscapeName(c);
    if name != "" {
      EscapeReference(c);
      EscapeShape(c, tail);
      ReferenceShape(name, tail);
      NormalizeReference(ReferenceThen(name, tail), |name| + 1, c);
    } else {
      NormalizePlain(c, tail);
    }
  }

  lemma {:induction false} NormalizePlain(c: char, tail: string)
    requires EscapeName(c) == "" && Normalize(tail).Some?
    ensures Normalize([c] + tail) == Some([c] + Normalize(tail).value)
  {
    assert ([c] + tail)[1..] == tail;
  }

  /** Escaping loses nothing: the escaped text normalizes to the exact value. */
  lemma {:induction false} EscapeRoundTrip(v: string)
    ensures Normalize(Escape(v)) == Some(v)
  {
    if v != "" {
      EscapeRoundTrip(v[1..]);
      EscapedChar(v[0], Escape(v[1..]));
      assert [v[0]] + v[1..] == v;
    }
  }

  /** An escaped value cannot end a double-quoted attribute early. */
  lemma {:induction false} EscapeUnquoted(v: string)
    ensures '"' !in Escape(v) && '<' !in Escape(v)
  {
    if v != "" {
      EscapeUnquoted(v[1..]);
      assert '"' !in EscapeChar(v[0]) && '<' !in EscapeChar(v[0]);
    }
  }

  method PushEscapedAttrValue(out0: string, value: string) returns (out: string)
    ensures out == out0 + Escape(value)
  {
    out := out0;
    for i := 0 to |value|
      invariant out + Escape(value[i..]) == out0 + Escape(value)
    {
      var escaped;
      match value[i] {
        case '&' => escaped := "&amp;";
        case '"' => escaped := "&quot;";
        case '<' => escaped := "&lt;";
        case '\t' => escaped := "&#9;";
        case '\n' => escaped := "&#10;";
        case '\r' => escaped := "&#13;";
        case c => escaped := [c];
      }
      assert value[i..][1..] == value[i + 1..];
      assert out + (escaped + Escape(value[i + 1..])) == out + escaped + Escape(value[i + 1..]);
      out := out + escaped;
    }
  }

  // ------------------------------------------------------------------
  // Start tags
  // ------------------------------------------------------------------

  /** `lead name before = after quote raw quote` */
  datatype RawAttr = RawAttr(lead: string, name: string, before: string, after: string, quote: char, raw: string)

  datatype Tag = Tag(name: string, attrs: seq<RawAttr>, trail: string, empty: bool)

  datatype Class = Space | Naming

  predicate Is(c: char, f: Class) {
    if f.Space? then Ws(c) else NameChar(c)
  }

  predicate All(s: string, f: Class) { forall i :: 0 <= i < |s| ==> Is(s[i], f) }

  /** The text of an attribute in front of `s`. */
  function AttrThen(x: RawAttr, s: string): string {
    x.lead + (x.name + EqValueThen(x.before, x.after, x.quote, x.raw, s))
  }

  function EqValueThen(before: string, after: string, q: char, raw: string, s: string): string {
    before + ("=" + (after + QuotedThen(q, raw, s)))
  }

  function QuotedThen(q: char, raw: string, s: string): string {
    [q] + (raw + ([q] + s))
  }

  function AttrsThen(xs: seq<RawAttr>, s: string): string {
    if xs == [] then s else AttrThen(xs[0], AttrsThen(xs[1..], s))
  }

  function Close(empty: bool): string {
    if empty then "/>" else ">"
  }

  function TagThen(t: Tag, s: string): string {
    "<" + (t.name + AttrsThen(t.attrs, t.trail + (Close(t.empty) + s)))
  }

  predicate WfAttr(x: RawAttr) {
    && x.lead != "" && All(x.lead, Space) && x.name != "" && All(x.name, Naming)
    && All(x.before, Space) && All(x.after, Space) && Quote(x.quote)
    && x.quote !in x.raw && Normalize(x.raw).Some?
  }

  predicate WfTag(t: Tag) {
    && t.name != "" && All(t.name, Naming) && All(t.trail, Space)
    && forall i :: 0 <= i < |t.attrs| ==> WfAttr(t.attrs[i])
  }

  // A parser for start tags, the reference for what a text means.

  function Span(s: string, f: Class): (n: nat)
    ensures n <= |s| && All(s[..n], f) && (n < |s| ==> !Is(s[n], f))
  {
    if s == "" || !Is(s[0], f) then 0
    else
      var k := Span(s[1..], f);
      assert s[..k + 1] == [s[0]] + s[1..][..k];
      k + 1
  }

  function Split(s: string, f: Class): (r: (string, string))
    ensures s == r.0 + r.1 && All(r.0, f) && (r.1 != "" ==> !Is(r.1[0], f))
  {
    var n := Span(s, f);
    (s[..n], s[n..])
  }

  /** The quoted part: the quote, the raw value and what follows it. */
  function ParseQuoted(s: string): Option<(char, string, string)> {
    if s == "" || !Quote(s[0]) then None
    else
      var n := IndexOf(s[1..], s[0]);
      if n == |s[1..]| || Normalize(s[1..][..n]).None? then None
      else Some((s[0], s[1..][..n], s[1..][n + 1..]))
  }

  /** `before = after quoted` */
  function ParseEqValue(s: string): Option<(string, string, char, string, string)> {
    var (before, s1) := Split(s, Space);
    if s1 == "" || s1[0] != '=' then None
    else
      var (after, s2) := Split(s1[1..], Space);
      match ParseQuoted(s2)
      case None => None
      case Some((q, raw, rest)) => Some((before, after, q, raw, rest))
  }

  function ParseAttr(s: string): Option<(RawAttr, string)> {
    var (lead, s1) := Split(s, Space);
    var (name, s2) := Split(s1, Naming);
    if lead == "" || name == "" then None
    else match ParseEqValue(s2)
         case None => None
         case Some((before, after, q, raw, rest)) => Some((RawAttr(lead, name, before, after, q, raw), rest))
  }

  function ParseAttrs(s: string): Option<(seq<RawAttr>, string, bool, string)>
    decreases |s|
  {
    var (trail, s1) := Split(s, Space);
    if s1 == "" then None
    else if s1[0] == '>' then Some(([], trail, false, s1[1..]))
    else if s1[0] == '/' then
      if |s1| > 1 && s1[1] == '>' then Some(([], trail, true, s1[2..])) else None
    else
      match ParseAttr(s)
      case None => None
      case Some((x, s2)) =>
        if |s2| >= |s| then None
        else match ParseAttrs(s2)
             case None => None
             case Some((xs, end, empty, rest)) => Some(([x] + xs, end, empty, rest))
  }

  function ParseTag(s: string): Option<(Tag, string)> {
    if s == "" || s[0] != '<' then None
    else
      var (name, s1) := Split(s[1..], Naming);
      if name == "" then None
      else match ParseAttrs(s1)
           case None => None
           case Some((xs, trail, empty, rest)) => Some((Tag(name, xs, trail, empty), rest))
  }

  lemma {:induction false} SpanOf(x: string, s: string, f: Class)
    requires All(x, f) && (s == "" || !Is(s[0], f))
    ensures Span(x + s, f) == |x|
  {
    if x == "" {
      assert x + s == s;
    } else {
      assert (x + s)[1..] == x[1..] + s;
      SpanOf(x[1..], s, f);
    }
  }

  lemma {:induction false} SplitOf(x: string, s: string, f: Class)
    requires All(x, f) && (s == "" || !Is(s[0], f))
    ensures Split(x + s, f) == (x, s)
  {
    SpanOf(x, s, f);
  }

  lemma {:induction false} IndexAfter(x: string, c: char, s: string)
    requires c !in x
    ensures IndexOf(x + ([c] + s), c) == |x|
  {
    var all := x + ([c] + s);
    assert all[|x|] == c;
    assert forall i :: 0 <= i < |x| ==> all[i] == x[i] && x[i] in x;
  }

  lemma {:induction false} QuotedRoundTrip(q: char, raw: string, s: string)
    requires Quote(q) && q !in raw && Normalize(raw).Some?
    ensures ParseQuoted(QuotedThen(q, raw, s)) == Some((q, raw, s))
  {
    QuotedShape(q, raw, s);
    QuotedSplit(QuotedThen(q, raw, s), raw, s);
  }

  lemma {:induction false} QuotedShape(q: char, raw: string, s: string)
    requires q !in raw
    ensures var all := QuotedThen(q, raw, s);
      && all[0] == q && IndexOf(all[1..], q) == |raw| < |all[1..]|
      && all[1..][..|raw|] == raw && all[1..][|raw| + 1..] == s
  {
    IndexAfter(raw, q, s);
    assert QuotedThen(q, raw, s)[1..] == raw + ([q] + s);
  }

  lemma {:induction false} QuotedSplit(all: string, raw: string, s: string)
    requires all != "" && Quote(all[0]) && IndexOf(all[1..], all[0]) == |raw| < |all[1..]|
    requires all[1..][..|raw|] == raw && all[1..][|raw| + 1..] == s && Normalize(raw).Some?
    ensures ParseQuoted(all) == Some((all[0], raw, s))
  {
  }

  lemma {:induction false} EqValueRoundTrip(before: string, after: string, q: char, raw: string, s: string)
    requires All(before, Space) && All(after, Space) && Quote(q) && q !in raw && Normalize(raw).Some?
    ensures ParseEqValue(EqValueThen(before, after, q, raw, s)) == Some((before, after, q, raw, s))
  {
    var s2 := QuotedThen(q, raw, s);
    var s1 := "=" + (after + s2);
    assert s1[1..] == after + s2;
    SplitOf(before, s1, Space);
    SplitOf(after, s2, Space);
    QuotedRoundTrip(q, raw, s);
  }

  /** Parsing inverts rendering, attribute by attribute. */
  lemma {:induction false} AttrRoundTrip(x: RawAttr, s: string)
    requires WfAttr(x)
    ensures ParseAttr(AttrThen(x, s)) == Some((x, s))
    ensures var s1 := Split(AttrThen(x, s), Space).1; s1 != "" && NameChar(s1[0])
  {
    var s2 := EqValueThen(x.before, x.after, x.quote, x.raw, s);
    var s1 := x.name + s2;
    EqValueRoundTrip(x.before, x.after, x.quote, x.raw, s);
    assert !NameChar(s2[0]);
    SplitOf(x.lead, s1, Space);
    SplitOf(x.name, s2, Naming);
  }

  lemma {:induction false} EndRoundTrip(trail: string, empty: bool, s: string)
    requires All(trail, Space)
    ensures ParseAttrs(trail + (Close(empty) + s)) == Some(([], trail, empty, s))
  {
    var tail := Close(empty) + s;
    SplitOf(trail, tail, Space);
    assert tail[|Close(empty)|..] == s;
  }

  lemma {:induction false} AttrsStep(xs: seq<RawAttr>, all: string, text: string, trail: string, empty: bool, s: string)
    requires xs != [] && WfAttr(xs[0]) && ParseAttrs(text) == Some((xs[1..], trail, empty, s)) && all == AttrThen(xs[0], text)
    ensures ParseAttrs(all) == Some((xs, trail, empty, s))
  {
    AttrRoundTrip(xs[0], text);
    AttrShape(xs[0], text);
    HeadAndRest(xs);
    AttrsCons(all, xs[0], text, xs[1..], trail, empty, s);
  }

  lemma {:induction false} AttrsCons(all: string, x: RawAttr, text: string, more: seq<RawAttr>, trail: string, empty: bool, s: string)
    requires ParseAttr(all) == Some((x, text)) && |text| < |all| && ParseAttrs(text) == Some((more, trail, empty, s))
    requires var s1 := Split(all, Space).1; s1 != "" && NameChar(s1[0])
    ensures ParseAttrs(all) == Some(([x] + more, trail, empty, s))
  {
  }

  lemma {:induction false} HeadAndRest<T>(xs: seq<T>)
    requires xs != []
    ensures [xs[0]] + xs[1..] == xs
  {
  }

  ghost predicate AllWf(xs: seq<RawAttr>) {
    xs == [] || (WfAttr(xs[0]) && AllWf(xs[1..]))
  }

  lemma {:induction false} EachWf(xs: seq<RawAttr>)
    requires forall i :: 0 <= i < |xs| ==> WfAttr(xs[i])
    ensures AllWf(xs)
  {
    if xs != [] { EachWf(xs[1..]); }
  }

  lemma {:induction false} AttrsRoundTrip(xs: seq<RawAttr>, tail: string, trail: string, empty: bool, s: string)
    requires ParseAttrs(tail) == Some(([], trail, empty, s)) && AllWf(xs)
    ensures ParseAttrs(AttrsThen(xs, tail)) == Some((xs, trail, empty, s))
    decreases |xs|
  {
    if xs != [] {
      AttrsRoundTrip(xs[1..], tail, trail, empty, s);
      AttrsStep(xs, AttrsThen(xs, tail), AttrsThen(xs[1..], tail), trail, empty, s);
    }
  }

  lemma {:induction false} AttrsStart(xs: seq<RawAttr>, trail: string, empty: bool, s: string)
    requires All(trail, Space) && forall i :: 0 <= i < |xs| ==> WfAttr(xs[i])
    ensures var t := AttrsThen(xs, trail + (Close(empty) + s)); t != "" && !NameChar(t[0])
  {
  }

  lemma {:induction false} TagRoundTrip(t: Tag, s: string)
    requires WfTag(t)
    ensures ParseTag(TagThen(t, s)) == Some((t, s))
  {
    var s1 := AttrsThen(t.attrs, t.trail + (Close(t.empty) + s));
    assert TagThen(t, s)[1..] == t.name + s1;
    AttrsStart(t.attrs, t.trail, t.empty, s);
    SplitOf(t.name, s1, Naming);
    EndRoundTrip(t.trail, t.empty, s);
    EachWf(t.attrs);
    AttrsRoundTrip(t.attrs, t.trail + (Close(t.empty) + s), t.trail, t.empty, s);
  }

  // Rendering inverts parsing.

  lemma {:induction false} QuotedParsed(s: string)
    requires ParseQuoted(s).Some?
    ensures var (q, raw, rest) := ParseQuoted(s).value;
      s == QuotedThen(q, raw, rest) && Quote(q) && q !in raw && Normalize(raw).Some?
  {
    var n := IndexOf(s[1..], s[0]);
    assert s[1..] == s[1..][..n] + ([s[0]] + s[1..][n + 1..]);
    assert s == [s[0]] + s[1..];
  }

  lemma {:induction false} EqValueParsed(s: string)
    requires ParseEqValue(s).Some?
    ensures var (before, after, q, raw, rest) := ParseEqValue(s).value;
      && s == EqValueThen(before, after, q, raw, rest)
      && All(before, Space) && All(after, Space) && Quote(q) && q !in raw && Normalize(raw).Some?
  {
    var (before, s1) := Split(s, Space);
    var s3 := s1[1..];
    var (after, s2) := Split(s3, Space);
    QuotedParsed(s2);
    Uncons(s1);
  }

  lemma {:induction false} Uncons(s: string)
    requires s != ""
    ensures s == [s[0]] + s[1..]
  {
  }

  lemma {:induction false} AttrParsed(s: string)
    requires ParseAttr(s).Some?
    ensures var (x, rest) := ParseAttr(s).value; WfAttr(x) && s == AttrThen(x, rest) && |rest| < |s|
  {
    var (lead, s1) := Split(s, Space);
    var (name, s2) := Split(s1, Naming);
    EqValueParsed(s2);
  }

  lemma {:induction false} AttrsParsed(s: string)
    requires ParseAttrs(s).Some?
    ensures var (xs, trail, empty, rest) := ParseAttrs(s).value;
      && s == AttrsThen(xs, trail + (Close(empty) + rest))
      && All(trail, Space) && forall i :: 0 <= i < |xs| ==> WfAttr(xs[i])
    decreases |s|
  {
    var (xs, trail, empty, rest) := ParseAttrs(s).value;
    var (w, s1) := Split(s, Space);
    if s1[0] == '>' || s1[0] == '/' {
      assert s1 == Close(empty) + rest;
    } else {
      var (x, s2) := ParseAttr(s).value;
      AttrParsed(s);
      AttrsParsed(s2);
      assert xs[1..] == ParseAttrs(s2).value.0;
    }
  }

  lemma {:induction false} TagParsed(s: string)
    requires ParseTag(s).Some?
    ensures var (t, rest) := ParseTag(s).value; WfTag(t) && s == TagThen(t, rest)
  {
    var (name, s1) := Split(s[1..], Naming);
    var (xs, trail, empty, rest) := ParseAttrs(s1).value;
    AttrsParsed(s1);
    TagRead(s, s1, Tag(name, xs, trail, empty), rest);
  }

  lemma {:induction false} TagRead(s: string, s1: string, t: Tag, rest: string)
    requires s != "" && s[0] == '<' && s[1..] == t.name + s1 && s1 == AttrsThen(t.attrs, t.trail + (Close(t.empty) + rest))
    ensures s == TagThen(t, rest)
  {
    assert s == "<" + s[1..];
  }

  // ------------------------------------------------------------------
  // Finding the end of the start tag
  // ------------------------------------------------------------------

  /** The offset at which the scan from `i`, inside `quote` if any, stops. */
  function EndFrom(text: string, i: nat, quote: Option<char>): Option<nat>
    requires i <= |text|
    decreases |text| - i
  {
    if i == |text| then None
    else if quote.Some? then EndFrom(text, i + 1, if text[i] == quote.value then None else quote)
    else if Quote(text[i]) then EndFrom(text, i + 1, Some(text[i]))
    else if text[i] == '>' then Some(if i > 0 && text[i - 1] == '/' then i - 1 else i)
    else EndFrom(text, i + 1, None)
  }

  method OpenTagEnd(text: string) returns (at: Option<nat>)
    ensures at == EndFrom(text, 0, None)
  {
    var quote: Option<char> := None;
    for i := 0 to |text|
      invariant EndFrom(text, 0, None) == EndFrom(text, i, quote)
    {
      var c := text[i];
      match quote {
        case Some(q) =>
          if c == q {
            quote := None;
          }
        case None =>
          if c == '"' || c == '\'' {
            quote := Some(c);
          } else if c == '>' {
            return Some(if i > 0 && text[i - 1] == '/' then i - 1 else i);
          }
      }
    }
    at := None;
  }

  predicate Plain(c: char) { !Quote(c) && c != '>' }

  ghost predicate At(text: string, i: nat, x: string) {
    i + |x| <= |text| && text[i..i + |x|] == x
  }

  lemma {:induction false} AtConcat(text: string, i: nat, x: string, y: string)
    requires At(text, i, x + y)
    ensures At(text, i, x) && At(text, i + |x|, y)
  {
    assert (x + y)[..|x|] == x && (x + y)[|x|..] == y;
    assert text[i..i + |x + y|][..|x|] == text[i..i + |x|];
    assert text[i..i + |x + y|][|x|..] == text[i + |x|..i + |x| + |y|];
  }

  lemma {:induction false} SkipPlain(text: string, i: nat, x: string)
    requires At(text, i, x) && forall k :: 0 <= k < |x| ==> Plain(x[k])
    ensures EndFrom(text, i, None) == EndFrom(text, i + |x|, None)
    decreases |x|
  {
    if x != "" {
      assert text[i] == text[i..i + |x|][0] == x[0];
      assert text[i + 1..i + 1 + |x[1..]|] == text[i..i + |x|][1..];
      SkipPlain(text, i + 1, x[1..]);
    }
  }

  lemma {:induction false} SkipRaw(text: string, i: nat, raw: string, q: char)
    requires At(text, i, raw) && q !in raw
    ensures EndFrom(text, i, Some(q)) == EndFrom(text, i + |raw|, Some(q))
    decreases |raw|
  {
    if raw != "" {
      assert text[i] == text[i..i + |raw|][0] == raw[0];
      assert text[i + 1..i + 1 + |raw[1..]|] == text[i..i + |raw|][1..];
      SkipRaw(text, i + 1, raw[1..], q);
    }
  }

  lemma {:induction false} SkipQuoted(text: string, i: nat, q: char, raw: string, s: string, j: nat)
    requires Quote(q) && q !in raw && At(text, i, QuotedThen(q, raw, s)) && j == i + |raw| + 2
    ensures EndFrom(text, i, None) == EndFrom(text, j, None)
    ensures At(text, j, s)
  {
    AtConcat(text, i, [q], raw + ([q] + s));
    AtConcat(text, i + 1, raw, [q] + s);
    AtConcat(text, i + 1 + |raw|, [q], s);
    assert text[i] == text[i..i + 1][0];
    assert text[i + 1 + |raw|] == text[i + 1 + |raw|..i + 2 + |raw|][0];
    SkipRaw(text, i + 1, raw, q);
  }

  /** An attribute up to its quoted value. */
  function AttrHead(x: RawAttr): string {
    x.lead + (x.name + (x.before + ("=" + x.after)))
  }

  function AttrBody(x: RawAttr): string {
    AttrHead(x) + ([x.quote] + (x.raw + [x.quote]))
  }

  function AttrsBody(xs: seq<RawAttr>): string {
    if xs == [] then "" else AttrBody(xs[0]) + AttrsBody(xs[1..])
  }

  lemma {:induction false} AttrShape(x: RawAttr, s: string)
    ensures AttrThen(x, s) == AttrBody(x) + s
    ensures AttrThen(x, s) == AttrHead(x) + QuotedThen(x.quote, x.raw, s)
  {
  }

  lemma {:induction false} AttrsShape(xs: seq<RawAttr>, s: string)
    ensures AttrsThen(xs, s) == AttrsBody(xs) + s
  {
    if xs != [] {
      AttrShape(xs[0], AttrsThen(xs[1..], s));
      AttrsShape(xs[1..], s);
      assert AttrBody(xs[0]) + (AttrsBody(xs[1..]) + s) == (AttrBody(xs[0]) + AttrsBody(xs[1..])) + s;
    }
  }

  lemma {:induction false} HeadIsPlain(x: RawAttr)
    requires WfAttr(x)
    ensures forall k :: 0 <= k < |AttrHead(x)| ==> Plain(AttrHead(x)[k])
  {
    assert forall k :: 0 <= k < |"=" + x.after| ==> Plain(("=" + x.after)[k]);
  }

  /** The scan goes from `i`, outside quotes, to `j`, outside quotes. */
  ghost predicate Skips(text: string, i: nat, j: nat) {
    i <= j <= |text| && EndFrom(text, i, None) == EndFrom(text, j, None)
  }

  lemma {:induction false} SkipAttr(text: string, i: nat, x: RawAttr, s: string, j: nat)
    requires WfAttr(x) && At(text, i, AttrThen(x, s)) && j == i + |AttrBody(x)|
    ensures At(text, j, s) && Skips(text, i, j)
  {
    AttrShape(x, s);
    AtConcat(text, i, AttrHead(x), QuotedThen(x.quote, x.raw, s));
    HeadIsPlain(x);
    SkipPlain(text, i, AttrHead(x));
    SkipQuoted(text, i + |AttrHead(x)|, x.quote, x.raw, s, j);
  }

  lemma {:induction false} SkipAttrs(text: string, i: nat, xs: seq<RawAttr>, s: string, j: nat)
    requires AllWf(xs) && At(text, i, AttrsThen(xs, s)) && j == i + |AttrsBody(xs)|
    ensures At(text, j, s) && Skips(text, i, j)
    decreases |xs|
  {
    if xs != [] {
      var mid := i + |AttrBody(xs[0])|;
      SkipAttr(text, i, xs[0], AttrsThen(xs[1..], s), mid);
      SkipAttrs(text, mid, xs[1..], s, j);
    }
  }

  /** A quote ends every attribute, and so a run of them. */
  lemma {:induction false} LastOfAttrs(xs: seq<RawAttr>)
    requires AllWf(xs) && xs != []
    ensures AttrsBody(xs) != "" && Quote(AttrsBody(xs)[|AttrsBody(xs)| - 1])
    decreases |xs|
  {
    if xs[1..] != [] {
      LastOfAttrs(xs[1..]);
      LastIn(AttrBody(xs[0]), AttrsBody(xs[1..]));
    } else {
      LastQuote(xs[0]);
      assert AttrBody(xs[0]) + "" == AttrBody(xs[0]);
    }
  }

  lemma {:induction false} LastIn(x: string, y: string)
    requires y != ""
    ensures (x + y)[|x + y| - 1] == y[|y| - 1]
  {
  }

  lemma {:induction false} LastQuote(x: RawAttr)
    requires Quote(x.quote)
    ensures AttrBody(x) != "" && Quote(AttrBody(x)[|AttrBody(x)| - 1])
  {
    LastIn(AttrHead(x), [x.quote] + (x.raw + [x.quote]));
    LastIn([x.quote], x.raw + [x.quote]);
    LastIn(x.raw, [x.quote]);
  }

  /** What stands before the close is never a slash. */
  lemma {:induction false} BeforeClose(t: Tag, s: string)
    requires WfTag(t)
    ensures var text := TagThen(t, s); var k := |text| - |Close(t.empty) + s|;
            k > 0 && text[k - 1] != '/'
  {
    HeadThen(t, s);
    HeadEnds(t);
  }

  lemma {:induction false} HeadEnds(t: Tag)
    requires WfTag(t)
    ensures Head(t)[|Head(t)| - 1] != '/'
  {
    if t.trail != "" {
      assert Head(t)[|Head(t)| - 1] == t.trail[|t.trail| - 1];
    } else if t.attrs != [] {
      EachWf(t.attrs);
      LastOfAttrs(t.attrs);
      var a := AttrsThen(t.attrs, "");
      AttrsShape(t.attrs, "");
      assert a == AttrsBody(t.attrs);
      assert Head(t)[|Head(t)| - 1] == a[|a| - 1];
    } else {
      assert Head(t)[|Head(t)| - 1] == t.name[|t.name| - 1];
    }
  }

  lemma {:induction false} CloseFound(text: string, k: nat, empty: bool, s: string)
    requires 0 < k && At(text, k, Close(empty) + s) && text[k - 1] != '/'
    ensures EndFrom(text, k, None) == Some(k)
  {
    AtConcat(text, k, Close(empty), s);
    assert text[k] == text[k..k + |Close(empty)|][0] == Close(empty)[0];
    if empty {
      assert text[k + 1] == text[k..k + 2][1] == '>';
    }
  }

  lemma {:induction false} ScanHead(text: string, head: string, body: string)
    requires text == head + body && forall k :: 0 <= k < |head| ==> Plain(head[k])
    ensures At(text, |head|, body) && EndFrom(text, 0, None) == EndFrom(text, |head|, None)
  {
    AtStart(text, head, body);
    SkipPlain(text, 0, head);
  }

  lemma {:induction false} AtStart(text: string, head: string, body: string)
    requires text == head + body
    ensures At(text, 0, head) && At(text, |head|, body)
  {
    assert text[..|head|] == head;
    assert text[|head|..] == body;
  }

  lemma {:induction false} ScanToTrail(text: string, head: string, xs: seq<RawAttr>, tail: string, j: nat)
    requires text == head + AttrsThen(xs, tail) && j == |head| + |AttrsBody(xs)|
    requires (forall k :: 0 <= k < |head| ==> Plain(head[k])) && forall k :: 0 <= k < |xs| ==> WfAttr(xs[k])
    ensures At(text, j, tail) && Skips(text, 0, j)
  {
    ScanHead(text, head, AttrsThen(xs, tail));
    EachWf(xs);
    SkipAttrs(text, |head|, xs, tail, j);
  }

  /** The scan stops right where the closing `>` or `/>` begins. */
  lemma {:induction false} ScanFindsClose(t: Tag, s: string)
    requires WfTag(t)
    ensures var text := TagThen(t, s);
            EndFrom(text, 0, None) == Some(|text| - |Close(t.empty) + s|)
  {
    var text, end := TagThen(t, s), Close(t.empty) + s;
    var k := |text| - |end|;
    BeforeClose(t, s);
    ScanToClose(t, text, "<" + t.name, t.trail, end, k);
    CloseFound(text, k, t.empty, s);
  }

  lemma {:induction false} ScanToClose(t: Tag, text: string, head: string, trail: string, end: string, k: nat)
    requires WfTag(t) && head == "<" + t.name && trail == t.trail && text == head + AttrsThen(t.attrs, trail + end) && k == |text| - |end|
    ensures At(text, k, end) && Skips(text, 0, k)
  {
    var j := |head| + |AttrsBody(t.attrs)|;
    AttrsShape(t.attrs, trail + end);
    assert |text| == j + (|trail| + |end|);
    ScanToTrail(text, head, t.attrs, trail + end, j);
    ScanTrail(text, j, trail, end, k);
  }

  lemma {:induction false} ScanTrail(text: string, i: nat, trail: string, end: string, j: nat)
    requires All(trail, Space) && At(text, i, trail + end) && j == i + |trail|
    ensures At(text, j, end) && Skips(text, i, j)
  {
    AtConcat(text, i, trail, end);
    SkipPlain(text, i, trail);
  }

  // ------------------------------------------------------------------
  // The splice
  // ------------------------------------------------------------------

  function AttrName(prefix: string): string {
    if prefix == "" then "xmlns" else "xmlns:" + prefix
  }

  function DeclAttr(lead: string, d: Decl): RawAttr {
    RawAttr(lead, AttrName(d.prefix), "", "", '"', Escape(d.uri))
  }

  /** The spliced declarations as attributes, `lead` in front of the first. */
  function DeclAttrs(lead: string, ds: seq<Decl>): (r: seq<RawAttr>)
    ensures |r| == |ds|
    ensures forall i :: 0 <= i < |ds| ==> r[i] == DeclAttr(if i == 0 then lead else " ", ds[i])
  {
    seq(|ds|, i requires 0 <= i < |ds| => DeclAttr(if i == 0 then lead else " ", ds[i]))
  }

  function DeclsText(ds: seq<Decl>): string {
    AttrsThen(DeclAttrs(" ", ds), "")
  }

  /** An attribute list as a parser reports it: names and normalized values. */
  function Attributes(xs: seq<RawAttr>): (r: seq<(string, Option<string>)>)
    ensures |r| == |xs| && forall i :: 0 <= i < |xs| ==> r[i] == (xs[i].name, Normalize(xs[i].raw))
  {
    seq(|xs|, i requires 0 <= i < |xs| => (xs[i].name, Normalize(xs[i].raw)))
  }

  function Declared(ds: seq<Decl>): (r: seq<(string, Option<string>)>)
    ensures |r| == |ds| && forall i :: 0 <= i < |ds| ==> r[i] == (AttrName(ds[i].prefix), Some(ds[i].uri))
  {
    seq(|ds|, i requires 0 <= i < |ds| => (AttrName(ds[i].prefix), Some(ds[i].uri)))
  }

  ghost predicate PrefixesNamed(ds: seq<Decl>) {
    forall i :: 0 <= i < |ds| ==> All(ds[i].prefix, Naming)
  }

  lemma {:induction false} DeclText(d: Decl)
    ensures AttrThen(DeclAttr(" ", d), "") == " " + AttrName(d.prefix) + "=\"" + Escape(d.uri) + "\""
  {
  }

  method PushDeclaration(decls0: string, d: Decl) returns (decls: string)
    ensures decls == decls0 + (" " + AttrName(d.prefix) + "=\"" + Escape(d.uri) + "\"")
  {
    decls := decls0 + " xmlns";
    if d.prefix != "" {
      decls := decls + ":";
      decls := decls + d.prefix;
    }
    assert decls == decls0 + (" " + AttrName(d.prefix));
    decls := decls + "=\"";
    decls := PushEscapedAttrValue(decls, d.uri);
    decls := decls + "\"";
  }

  lemma {:induction false} DeclsSnoc(ds: seq<Decl>, d: Decl)
    ensures DeclsText(ds + [d]) == DeclsText(ds) + AttrThen(DeclAttr(" ", d), "")
  {
    var xs := DeclAttrs(" ", ds);
    assert DeclAttrs(" ", ds + [d]) == xs + [DeclAttr(" ", d)];
    AttrsConcat(xs, [DeclAttr(" ", d)], "");
    SingleAttr(DeclAttr(" ", d));
    AttrsAppend(xs, AttrThen(DeclAttr(" ", d), ""));
  }

  lemma {:induction false} SingleAttr(x: RawAttr)
    ensures AttrsThen([x], "") == AttrThen(x, "")
  {
    assert [x][1..] == [];
  }

  method WriteDeclarations(missing: seq<Decl>) returns (decls: string)
    ensures decls == DeclsText(missing)
  {
    decls := "";
    for i := 0 to |missing|
      invariant decls == DeclsText(missing[..i])
    {
      DeclText(missing[i]);
      DeclsSnoc(missing[..i], missing[i]);
      assert missing[..i + 1] == missing[..i] + [missing[i]];
      decls := PushDeclaration(decls, missing[i]);
    }
    assert missing[..|missing|] == missing;
  }

  lemma {:induction false} AttrsAppend(xs: seq<RawAttr>, s: string)
    ensures AttrsThen(xs, s) == AttrsThen(xs, "") + s
  {
    if xs != [] {
      AttrsAppend(xs[1..], s);
      AttrShape(xs[0], AttrsThen(xs[1..], s));
      AttrShape(xs[0], AttrsThen(xs[1..], ""));
    }
  }

  lemma {:induction false} AttrsConcat(xs: seq<RawAttr>, ys: seq<RawAttr>, s: string)
    ensures AttrsThen(xs + ys, s) == AttrsThen(xs, AttrsThen(ys, s))
  {
    if xs == [] {
      assert xs + ys == ys;
    } else {
      assert (xs + ys)[0] == xs[0] && (xs + ys)[1..] == xs[1..] + ys;
      AttrsConcat(xs[1..], ys, s);
    }
  }

  lemma {:induction false} FirstLead(trail: string, ds: seq<Decl>, s: string)
    requires ds != []
    ensures AttrsThen(DeclAttrs(trail + " ", ds), s) == trail + (DeclsText(ds) + s)
  {
    var xs, ys := DeclAttrs(trail + " ", ds), DeclAttrs(" ", ds);
    assert xs[1..] == ys[1..];
    AttrsAppend(ys, s);
    LeadMoves(ys[0], trail, AttrsThen(xs[1..], s));
    assert xs[0] == ys[0].(lead := trail + " ");
  }

  lemma {:induction false} LeadMoves(y: RawAttr, trail: string, rest: string)
    ensures AttrThen(y.(lead := trail + y.lead), rest) == trail + AttrThen(y, rest)
  {
  }

  /** The tag that the splice is meant to produce. */
  function WithDecls(t: Tag, ds: seq<Decl>): Tag {
    if ds == [] then t else Tag(t.name, t.attrs + DeclAttrs(t.trail + " ", ds), "", t.empty)
  }

  /** Everything in front of the closing `>` or `/>`. */
  function Head(t: Tag): string {
    "<" + t.name + AttrsThen(t.attrs, "") + t.trail
  }

  lemma {:induction false} HeadThen(t: Tag, s: string)
    ensures TagThen(t, s) == Head(t) + (Close(t.empty) + s)
  {
    AttrsAppend(t.attrs, t.trail + (Close(t.empty) + s));
  }

  lemma {:induction false} AttrsWithDecls(t: Tag, ds: seq<Decl>, end: string)
    requires ds != []
    ensures AttrsThen(t.attrs + DeclAttrs(t.trail + " ", ds), end) == AttrsThen(t.attrs, "") + (t.trail + (DeclsText(ds) + end))
  {
    AttrsConcat(t.attrs, DeclAttrs(t.trail + " ", ds), end);
    FirstLead(t.trail, ds, end);
    AttrsAppend(t.attrs, t.trail + (DeclsText(ds) + end));
  }

  lemma {:induction false} HeadWithDecls(t: Tag, ds: seq<Decl>, s: string)
    requires ds != []
    ensures TagThen(WithDecls(t, ds), s) == Head(t) + (DeclsText(ds) + (Close(t.empty) + s))
  {
    var end := Close(t.empty) + s;
    AttrsWithDecls(t, ds, end);
    assert "" + end == end;
    Reassociate(t.name, AttrsThen(t.attrs, ""), t.trail, DeclsText(ds) + end);
  }

  lemma {:induction false} Reassociate(name: string, lead: string, trail: string, y: string)
    ensures "<" + (name + (lead + (trail + y))) == "<" + name + lead + trail + y
  {
  }

  lemma {:induction false} SpliceShape(t: Tag, s: string, ds: seq<Decl>)
    requires ds != []
    ensures var text := TagThen(t, s); var at := |text| - |Close(t.empty) + s|;
            at >= 0 && text[..at] + DeclsText(ds) + text[at..] == TagThen(WithDecls(t, ds), s)
  {
    HeadThen(t, s);
    HeadWithDecls(t, ds, s);
    Insert(Head(t), DeclsText(ds), Close(t.empty) + s);
  }

  lemma {:induction false} Insert(x: string, d: string, y: string)
    ensures (x + y)[..|x|] + d + (x + y)[|x|..] == x + (d + y)
  {
  }

  lemma {:induction false} WfDeclAttr(lead: string, d: Decl)
    requires lead != "" && All(lead, Space) && All(d.prefix, Naming)
    ensures WfAttr(DeclAttr(lead, d)) && Normalize(DeclAttr(lead, d).raw) == Some(d.uri)
  {
    EscapeRoundTrip(d.uri);
    EscapeUnquoted(d.uri);
    NameIsNaming(d.prefix);
  }

  lemma {:induction false} NameIsNaming(prefix: string)
    requires All(prefix, Naming)
    ensures All(AttrName(prefix), Naming) && AttrName(prefix) != ""
  {
    assert All("xmlns", Naming) && All("xmlns:", Naming);
  }

  lemma {:induction false} SplicedTag(t: Tag, ds: seq<Decl>)
    requires WfTag(t) && PrefixesNamed(ds)
    ensures WfTag(WithDecls(t, ds))
    ensures Attributes(WithDecls(t, ds).attrs) == Attributes(t.attrs) + Declared(ds)
  {
    var xs := DeclAttrs(t.trail + " ", ds);
    forall i | 0 <= i < |ds| ensures WfAttr(xs[i]) && Normalize(xs[i].raw) == Some(ds[i].uri) {
      WfDeclAttr(if i == 0 then t.trail + " " else " ", ds[i]);
    }
    assert Attributes(xs) == Declared(ds);
  }

  ghost predicate Spliced(text0: string, text: string, missing: seq<Decl>) {
    && ParseTag(text0).Some? && ParseTag(text).Some?
    && var (t, rest), (u, rest') := ParseTag(text0).value, ParseTag(text).value;
    && u.name == t.name && u.empty == t.empty && rest' == rest
    && Attributes(u.attrs) == Attributes(t.attrs) + Declared(missing)
  }

  lemma {:induction false} SpliceParses(text0: string, missing: seq<Decl>)
    requires ParseTag(text0).Some? && PrefixesNamed(missing)
    ensures var (t, s) := ParseTag(text0).value; Spliced(text0, TagThen(WithDecls(t, missing), s), missing)
  {
    var (t, s) := ParseTag(text0).value;
    TagParsed(text0);
    SplicedTag(t, missing);
    TagRoundTrip(WithDecls(t, missing), s);
  }

  lemma {:induction false} SplicePoint(t: Tag, s: string, missing: seq<Decl>)
    requires WfTag(t) && missing != []
    ensures var text := TagThen(t, s); var at := EndFrom(text, 0, None);
      && at.Some? && at.value <= |text|
      && text[..at.value] + DeclsText(missing) + text[at.value..] == TagThen(WithDecls(t, missing), s)
  {
    var text, at := TagThen(t, s), |TagThen(t, s)| - |Close(t.empty) + s|;
    SpliceShape(t, s, missing);
    ScanFindsClose(t, s);
    assert EndFrom(text, 0, None) == Some(at);
  }

  /** Splice the missing declarations into any text that starts with a
      well-formed start tag: same name, the old attributes in order, then exactly
      the declarations with their exact URIs; everything after is unchanged. */
  method SpliceDeclarations(text0: string, missing: seq<Decl>) returns (text: string)
    requires ParseTag(text0).Some? && PrefixesNamed(missing)
    ensures Spliced(text0, text, missing)
  {
    text := text0;
    SpliceParses(text0, missing);
    TagParsed(text0);
    if missing != [] {
      SplicePoint(ParseTag(text0).value.0, ParseTag(text0).value.1, missing);
      var at := OpenTagEnd(text);
      if at.Some? {
        var decls := WriteDeclarations(missing);
        text := text[..at.value] + decls + text[at.value..];
      }
    }
  }
}
