/** The DOM fingerprint: the tag names of a page, in order. */
module DomFingerprint {
  import opened Text

  datatype State = State(
    tags: seq<string>, inTag: bool, inQuote: bool, quoteChar: char, current: string, inScript: bool, inStyle: bool)

  predicate EndsName(c: char) { c == '>' || c == ' ' || c == '/' || c == '\t' || c == '\n' || c == '\r' }

  predicate IsQuote(c: char) { c == '"' || c == '\'' }

  /** Whether the text goes on with a closing tag, in any case. */
  predicate Closes(rest: string, tag: string) {
    |tag| <= |rest| && Lower(rest[..|tag|]) == tag
  }

  /** One character; `rest` is the text from that character on. */
  function Step(st: State, rest: string): State
    requires rest != ""
  {
    var c := rest[0];
    if st.inTag && st.inQuote then
      if c == st.quoteChar then st.(inQuote := false) else st
    else if c == '<' then
      var inScript := st.inScript && !Closes(rest, "</script>");
      var inStyle := st.inStyle && !Closes(rest, "</style>");
      if !inScript && !inStyle then st.(inScript := false, inStyle := false, inTag := true, current := "")
      else st.(inScript := inScript, inStyle := inStyle)
    else if st.inTag && IsQuote(c) then
      if st.current != "" then
        st.(inQuote := true, quoteChar := c, tags := st.tags + [Lower(st.current)], current := "")
      else
        st.(inQuote := true, quoteChar := c)
    else if EndsName(c) then
      if st.inTag && st.current != "" then
        var name := Lower(st.current);
        st.(tags := st.tags + [name],
            inScript := st.inScript || name == "script",
            inStyle := st.inStyle || name == "style",
            inTag := false)
      else
        st.(inTag := false)
    else if st.inTag then st.(current := st.current + [c])
    else st
  }

  function Scan(st: State, rest: string): State
    decreases |rest|
  {
    if rest == "" then st else Scan(Step(st, rest), rest[1..])
  }

  function Join(parts: seq<string>): string {
    if parts == [] then ""
    else if |parts| == 1 then parts[0]
    else Join(parts[..|parts| - 1]) + "," + parts[|parts| - 1]
  }

  const START := State([], false, false, '\0', "", false, false)

  method GenerateDomFingerprint(html: string) returns (fingerprint: string)
    ensures fingerprint == Join(Scan(START, html).tags)
  {
    var tags: seq<string>, current := [], "";
    var inTag, inQuote, quoteChar := false, false, '\0';
    var inScript, inStyle := false, false;
    var i := 0;
    assert html[0..] == html;
    while i < |html|
      invariant 0 <= i <= |html|
      invariant Scan(State(tags, inTag, inQuote, quoteChar, current, inScript, inStyle), html[i..]) == Scan(START, html)
    {
      var c := html[i];
      ghost var before := State(tags, inTag, inQuote, quoteChar, current, inScript, inStyle);
      if inTag && inQuote {
        if c == quoteChar {
          inQuote := false;
        }
      } else if c == '<' {
        if inScript && Closes(html[i..], "</script>") {
          inScript := false;
        }
        if inStyle && Closes(html[i..], "</style>") {
          inStyle := false;
        }
        if !inScript && !inStyle {
          inTag := true;
          current := "";
        }
      } else if inTag && IsQuote(c) {
        inQuote := true;
        quoteChar := c;
        if current != "" {
          tags := tags + [Lower(current)];
          current := "";
        }
      } else if EndsName(c) {
        if inTag && current != "" {
          var name := Lower(current);
          if name == "script" {
            inScript := true;
          } else if name == "style" {
            inStyle := true;
          }
          tags := tags + [name];
        }
        inTag := false;
      } else if inTag {
        current := current + [c];
      }
      assert State(tags, inTag, inQuote, quoteChar, current, inScript, inStyle) == Step(before, html[i..]);
      assert html[i..][1..] == html[i + 1..];
      i := i + 1;
    }
    fingerprint := Join(tags);
  }

  // ---- Printed pages ----

  /** What ends a name besides the bracket, and what quotes. */
  const SEPARATORS := " /\t\n\r"
  const QUOTES := "\"'"

  /** A page as nodes with a following sibling each. `Raw` is a script or style element; `Quoted` is a start tag whose
      name runs into a quote, which may hold any markup. */
  datatype Page =
    | Empty
    | Text(text: string, next: Page)
    | Element(name: string, attributes: string, children: Page, next: Page)
    | Void(name: string, attributes: string, next: Page)
    | Raw(name: string, attributes: string, content: string, next: Page)
    | Quoted(name: string, quote: char, inside: string, next: Page)

  predicate PlainName(name: string) {
    && name != ""
    && forall c :: c in name ==> c != '<' && c != '>' && c !in SEPARATORS && c !in QUOTES
  }

  /** Nothing, or something set off from the name, without a bracket that would open a tag. */
  predicate PlainAttributes(attributes: string) {
    && '<' !in attributes
    && (attributes != "" ==> attributes[0] in SEPARATORS || attributes[0] == '>')
  }

  predicate IsRaw(name: string) { Lower(name) == "script" || Lower(name) == "style" }

  predicate NeverCloses(content: string, tag: string) {
    forall i :: 0 <= i <= |content| ==> !Closes(content[i..], tag)
  }

  predicate WellFormed(p: Page) {
    match p
    case Empty => true
    case Text(text, next) => '<' !in text && WellFormed(next)
    case Element(name, attributes, children, next) =>
      PlainName(name) && !IsRaw(name) && PlainAttributes(attributes) && WellFormed(children) && WellFormed(next)
    case Void(name, attributes, next) =>
      PlainName(name) && !IsRaw(name) && PlainAttributes(attributes) && WellFormed(next)
    case Raw(name, attributes, content, next) =>
      PlainName(name) && IsRaw(name) && PlainAttributes(attributes)
      && NeverCloses(content, "</" + Lower(name) + ">") && WellFormed(next)
    case Quoted(name, quote, inside, next) =>
      PlainName(name) && quote in QUOTES && quote !in inside && WellFormed(next)
  }

  function OpenTag(name: string, attributes: string): string { "<" + (name + (attributes + ">")) }

  function QuotedTag(name: string, quote: char, inside: string): string {
    "<" + (name + ([quote] + (inside + ([quote] + ">"))))
  }

  function CloseTag(name: string): string { "</" + (name + ">") }

  function Print(p: Page): string {
    match p
    case Empty => ""
    case Text(text, next) => text + Print(next)
    case Element(name, attributes, children, next) =>
      OpenTag(name, attributes) + (Print(children) + (CloseTag(name) + Print(next)))
    case Void(name, attributes, next) => OpenTag(name, attributes) + Print(next)
    case Raw(name, attributes, content, next) =>
      OpenTag(name, attributes) + (content + (CloseTag(name) + Print(next)))
    case Quoted(name, quote, inside, next) => QuotedTag(name, quote, inside) + Print(next)
  }

  /** The tag names in document order, in lower case. */
  function Names(p: Page): seq<string> {
    match p
    case Empty => []
    case Text(_, next) => Names(next)
    case Element(name, _, children, next) => [Lower(name)] + Names(children) + Names(next)
    case Void(name, _, next) => [Lower(name)] + Names(next)
    case Raw(name, _, _, next) => [Lower(name)] + Names(next)
    case Quoted(name, _, _, next) => [Lower(name)] + Names(next)
  }

  // ---- The scanner reads printed pages ----

  predicate Idle(st: State) { !st.inTag && !st.inQuote && !st.inScript && !st.inStyle }

  predicate InRaw(st: State) { !st.inTag && !st.inQuote && st.inScript != st.inStyle }

  function RawClose(st: State): string { if st.inScript then "</script>" else "</style>" }

  lemma ScanStep(st: State, c: char, rest: string)
    ensures Scan(st, [c] + rest) == Scan(Step(st, [c] + rest), rest)
  {
    hide Step;
    assert ([c] + rest)[1..] == rest;
  }

  /** Outside a tag, text without '<' changes nothing. */
  lemma {:induction false} ScanText(st: State, text: string, rest: string)
    requires Idle(st) || InRaw(st)
    requires '<' !in text
    ensures Scan(st, text + rest) == Scan(st, rest)
  {
    hide Scan;
    if text == "" {
      assert text + rest == rest;
    } else {
      assert text + rest == [text[0]] + (text[1..] + rest);
      assert text[0] in text;
      ScanStep(st, text[0], text[1..] + rest);
      ScanText(st, text[1..], rest);
    }
  }

  /** Inside a tag, the characters of a name are collected. */
  lemma {:induction false} ScanName(st: State, name: string, rest: string)
    requires st.inTag && !st.inQuote
    requires forall c :: c in name ==> c != '<' && !EndsName(c) && !IsQuote(c)
    ensures Scan(st, name + rest) == Scan(st.(current := st.current + name), rest)
    decreases name
  {
    hide Scan, EndsName, IsQuote;
    if name == "" {
      assert name + rest == rest && st.current + name == st.current;
    } else {
      assert name[0] in name && forall c :: c in name[1..] ==> c in name;
      assert name + rest == [name[0]] + (name[1..] + rest);
      ScanStep(st, name[0], name[1..] + rest);
      var next := st.(current := st.current + [name[0]]);
      ScanName(next, name[1..], rest);
      assert next.current + name[1..] == st.current + name;
    }
  }

  lemma SeparatorsAre(c: char)
    ensures EndsName(c) <==> c == '>' || c in SEPARATORS
    ensures IsQuote(c) <==> c in QUOTES
  {
    assert SEPARATORS == [' ', '/', '\t', '\n', '\r'] && QUOTES == ['"', '\''];
  }

  lemma PlainNameIs(name: string)
    requires PlainName(name)
    ensures name != "" && forall c :: c in name ==> c != '<' && !EndsName(c) && !IsQuote(c)
  {
    hide EndsName, IsQuote;
    forall c | c in name
      ensures !EndsName(c) && !IsQuote(c)
    {
      SeparatorsAre(c);
    }
  }

  /** In quotes everything up to the closing one is passed over. */
  lemma {:induction false} ScanQuoted(st: State, inside: string, rest: string)
    requires st.inTag && st.inQuote && st.quoteChar !in inside
    ensures Scan(st, inside + rest) == Scan(st, rest)
  {
    hide Scan;
    if inside == "" {
      assert inside + rest == rest;
    } else {
      assert inside + rest == [inside[0]] + (inside[1..] + rest);
      assert inside[0] in inside;
      ScanStep(st, inside[0], inside[1..] + rest);
      ScanQuoted(st, inside[1..], rest);
    }
  }

  lemma ScanQuotedTag(st: State, name: string, quote: char, inside: string, rest: string) returns (after: State)
    requires Idle(st) && PlainName(name) && quote in QUOTES && quote !in inside
    ensures Idle(after) && after.tags == st.tags + [Lower(name)]
    ensures Scan(st, QuotedTag(name, quote, inside) + rest) == Scan(after, rest)
  {
    hide Scan, EndsName, IsQuote, Lower, PlainName;
    PlainNameIs(name);
    SeparatorsAre(quote);
    SeparatorsAre('<');
    QuoteIsNoBracket(quote);
    var tail := inside + ([quote] + (['>'] + rest));
    assert QuotedTag(name, quote, inside) + rest == ['<'] + (name + ([quote] + tail));
    ScanStep(st, '<', name + ([quote] + tail));
    var opened' := st.(inTag := true, current := "");
    ScanName(opened', name, [quote] + tail);
    var named := opened'.(current := "" + name);
    ScanStep(named, quote, tail);
    assert "" + name == name;
    var quoted := named.(inQuote := true, quoteChar := quote, tags := st.tags + [Lower(name)], current := "");
    ScanQuoted(quoted, inside, [quote] + (['>'] + rest));
    ScanStep(quoted, quote, ['>'] + rest);
    var unquoted := quoted.(inQuote := false);
    SeparatorsAre('>');
    ScanStep(unquoted, '>', rest);
    after := unquoted.(inTag := false);
  }

  lemma QuoteIsNoBracket(quote: char)
    requires quote in QUOTES
    ensures quote != '<'
  {
  }

  /** The state behind the start tag of an element. */
  function Opened(st: State, name: string): State {
    var tag := Lower(name);
    st.(tags := st.tags + [tag], current := name, inScript := tag == "script", inStyle := tag == "style")
  }

  lemma ScanOpen(st: State, name: string, attributes: string, rest: string)
    requires Idle(st) && PlainName(name) && PlainAttributes(attributes)
    ensures Scan(st, OpenTag(name, attributes) + rest) == Scan(Opened(st, name), rest)
  {
    hide Scan, EndsName, IsQuote, Lower, PlainName;
    PlainNameIs(name);
    var tail := attributes + ">";
    assert OpenTag(name, attributes) + rest == ['<'] + (name + (tail + rest));
    ScanStep(st, '<', name + (tail + rest));
    var inside := st.(inTag := true, current := "");
    ScanName(inside, name, tail + rest);
    assert "" + name == name;
    assert tail + rest == [tail[0]] + (tail[1..] + rest);
    TailEndsName(attributes);
    ScanStep(inside.(current := name), tail[0], tail[1..] + rest);
    ScanText(Opened(st, name), tail[1..], rest);
  }

  lemma TailEndsName(attributes: string)
    requires PlainAttributes(attributes)
    ensures var tail := attributes + ">";
            EndsName(tail[0]) && tail[0] != '<' && !IsQuote(tail[0]) && '<' !in tail[1..]
  {
    SeparatorsAre((attributes + ">")[0]);
  }

  lemma ScanClose(st: State, name: string, rest: string) returns (after: State)
    requires PlainName(name)
    requires Idle(st) || (InRaw(st) && Lower(CloseTag(name)) == RawClose(st))
    ensures Idle(after) && after.tags == st.tags
    ensures Scan(st, CloseTag(name) + rest) == Scan(after, rest)
  {
    hide Scan, Lower;
    var tail := name + ">";
    assert CloseTag(name) + rest == ['<'] + (['/'] + (tail + rest));
    assert (['<'] + (['/'] + (tail + rest)))[..|CloseTag(name)|] == CloseTag(name);
    ScanStep(st, '<', ['/'] + (tail + rest));
    if InRaw(st) {
      CloseLength(st, name);
    }
    var opened' := st.(inScript := false, inStyle := false, inTag := true, current := "");
    ScanStep(opened', '/', tail + rest);
    after := opened'.(inTag := false);
    ScanText(after, tail, rest);
  }

  lemma CloseLength(st: State, name: string)
    requires Lower(CloseTag(name)) == RawClose(st)
    ensures |CloseTag(name)| == |RawClose(st)|
  {
  }

  /** A closing tag is not completed across the end of a text by one that starts there. */
  lemma ClosesNotAcross(content: string, rest: string, tag: string)
    requires content != "" && !Closes(content, tag)
    requires rest != "" && rest[0] == '<'
    requires tag == "</script>" || tag == "</style>"
    ensures !Closes(content + rest, tag)
  {
    var s := content + rest;
    if |tag| <= |content| {
      assert s[..|tag|] == content[..|tag|];
    } else if |tag| <= |s| {
      assert s[..|tag|][|content|] == '<';
      assert Lower(s[..|tag|])[|content|] == '<';
      assert tag[|content|] != '<';
    }
  }

  lemma {:induction false} ScanRaw(st: State, content: string, rest: string)
    requires InRaw(st) && NeverCloses(content, RawClose(st))
    requires rest != "" && rest[0] == '<'
    ensures Scan(st, content + rest) == Scan(st, rest)
    decreases content
  {
    hide Scan, Closes, EndsName, IsQuote;
    if content == "" {
      assert content + rest == rest;
    } else {
      assert content + rest == [content[0]] + (content[1..] + rest);
      ScanStep(st, content[0], content[1..] + rest);
      assert content[0..] == content;
      ClosesNotAcross(content, rest, RawClose(st));
      RawStep(st, content + rest);
      forall i | 0 <= i <= |content[1..]|
        ensures !Closes(content[1..][i..], RawClose(st))
      {
        assert content[1..][i..] == content[i + 1..];
      }
      ScanRaw(st, content[1..], rest);
    }
  }

  lemma RawStep(st: State, rest: string)
    requires InRaw(st) && rest != "" && !Closes(rest, RawClose(st))
    ensures Step(st, rest) == st
  {
    hide Closes;
  }

  lemma RawTag(st: State, name: string)
    requires Idle(st) && IsRaw(name)
    ensures InRaw(Opened(st, name)) && RawClose(Opened(st, name)) == "</" + Lower(name) + ">"
    ensures Lower(CloseTag(name)) == RawClose(Opened(st, name))
  {
  }

  lemma PlainTag(st: State, name: string)
    requires Idle(st) && !IsRaw(name)
    ensures Idle(Opened(st, name)) && Opened(st, name).tags == st.tags + [Lower(name)]
  {
    hide Lower;
  }

  /** From an idle scanner, a printed page adds its tag names and leaves the scanner idle. */
  lemma {:induction false} ScanPage(p: Page, st: State, rest: string) returns (after: State)
    requires WellFormed(p) && Idle(st)
    ensures Idle(after) && after.tags == st.tags + Names(p)
    ensures Scan(st, Print(p) + rest) == Scan(after, rest)
    decreases p
  {
    hide Scan, PlainName, PlainAttributes, IsRaw, OpenTag, CloseTag, QuotedTag, NeverCloses, Lower, Opened, Idle;
    match p {
      case Empty =>
        after := st;
        assert "" + rest == rest && st.tags + [] == st.tags;
      case Text(text, next) =>
        Regroup2(text, Print(next), rest);
        ScanText(st, text, Print(next) + rest);
        after := ScanPage(next, st, rest);
      case Element(name, attributes, children, next) =>
        var afterOpen := Print(children) + (CloseTag(name) + (Print(next) + rest));
        Regroup4(OpenTag(name, attributes), Print(children), CloseTag(name), Print(next), rest);
        ScanOpen(st, name, attributes, afterOpen);
        PlainTag(st, name);
        var inner := ScanPage(children, Opened(st, name), CloseTag(name) + (Print(next) + rest));
        var closed := ScanClose(inner, name, Print(next) + rest);
        after := ScanPage(next, closed, rest);
        RegroupTags(st.tags, Lower(name), Names(children), Names(next));
      case Void(name, attributes, next) =>
        Regroup2(OpenTag(name, attributes), Print(next), rest);
        ScanOpen(st, name, attributes, Print(next) + rest);
        PlainTag(st, name);
        after := ScanPage(next, Opened(st, name), rest);
        RegroupTags(st.tags, Lower(name), [], Names(next));
      case Raw(name, attributes, content, next) =>
        Regroup4(OpenTag(name, attributes), content, CloseTag(name), Print(next), rest);
        var closed := ScanRawElement(st, name, attributes, content, Print(next) + rest);
        after := ScanPage(next, closed, rest);
        RegroupTags(st.tags, Lower(name), [], Names(next));
      case Quoted(name, quote, inside, next) =>
        Regroup2(QuotedTag(name, quote, inside), Print(next), rest);
        var closed := ScanQuotedTag(st, name, quote, inside, Print(next) + rest);
        after := ScanPage(next, closed, rest);
        RegroupTags(st.tags, Lower(name), [], Names(next));
    }
  }

  lemma Regroup2(a: string, b: string, rest: string)
    ensures (a + b) + rest == a + (b + rest)
  {
  }

  lemma Regroup4(a: string, b: string, c: string, d: string, rest: string)
    ensures (a + (b + (c + d))) + rest == a + (b + (c + (d + rest)))
  {
  }

  lemma RegroupTags(tags: seq<string>, name: string, a: seq<string>, b: seq<string>)
    ensures ((tags + [name]) + a) + b == tags + ([name] + a + b)
    ensures (tags + [name]) + b == tags + ([name] + b)
  {
  }

  lemma ScanRawElement(st: State, name: string, attributes: string, content: string, rest: string) returns (after: State)
    requires Idle(st) && PlainName(name) && IsRaw(name) && PlainAttributes(attributes)
    requires NeverCloses(content, "</" + Lower(name) + ">")
    ensures Idle(after) && after.tags == st.tags + [Lower(name)]
    ensures Scan(st, OpenTag(name, attributes) + (content + (CloseTag(name) + rest))) == Scan(after, rest)
  {
    hide Scan, PlainName, PlainAttributes, IsRaw, OpenTag, CloseTag, NeverCloses, Lower;
    var afterContent := CloseTag(name) + rest;
    ScanOpen(st, name, attributes, content + afterContent);
    RawTag(st, name);
    CloseStarts(name, rest);
    ScanRaw(Opened(st, name), content, afterContent);
    after := ScanClose(Opened(st, name), name, rest);
  }

  lemma CloseStarts(name: string, rest: string)
    ensures CloseTag(name) + rest != "" && (CloseTag(name) + rest)[0] == '<'
  {
  }

  /** The fingerprint of a printed page is the comma-joined list of its tag names in document order,
      whatever markup its scripts and styles quote. */
  lemma FingerprintOfPrinted(p: Page)
    requires WellFormed(p)
    ensures Join(Scan(START, Print(p)).tags) == Join(Names(p))
  {
    hide Print, Names, WellFormed;
    var after := ScanPage(p, START, "");
    assert Print(p) + "" == Print(p);
    ScanNothing(after);
    assert [] + Names(p) == Names(p);
  }

  // ---- Reading the fingerprint back ----

  /** What stands between the commas of a text. */
  function Commas(s: string): (parts: seq<string>)
    ensures parts != []
  {
    if s == "" then [""]
    else
      var rest := Commas(s[1..]);
      if s[0] == ',' then [""] + rest else [[s[0]] + rest[0]] + rest[1..]
  }

  lemma {:induction false} CommasOfPlain(s: string)
    requires ',' !in s
    ensures Commas(s) == [s]
  {
    if s != "" {
      assert s[0] in s;
      CommasOfPlain(s[1..]);
      assert s == [s[0]] + s[1..];
    }
  }

  lemma {:induction false} CommasAppend(s: string, last: string)
    requires ',' !in last
    ensures Commas(s + "," + last) == Commas(s) + [last]
  {
    if s == "" {
      CommasOfPlain(last);
      assert (s + "," + last)[1..] == last;
    } else {
      CommasAppend(s[1..], last);
      assert (s + "," + last)[1..] == s[1..] + "," + last;
    }
  }

  /** Names without commas can be read back from the fingerprint, in order. */
  lemma {:induction false} JoinReadsBack(names: seq<string>)
    requires names != [] && forall i :: 0 <= i < |names| ==> ',' !in names[i]
    ensures Commas(Join(names)) == names
  {
    var init, last := names[..|names| - 1], names[|names| - 1];
    assert names == init + [last];
    if init == [] {
      CommasOfPlain(last);
    } else {
      JoinReadsBack(init);
      CommasAppend(Join(init), last);
    }
  }

  /** The fingerprint of a printed page, read at its commas, is the list of its tag names. */
  lemma FingerprintReadsBack(p: Page)
    requires WellFormed(p) && Names(p) != []
    requires forall i :: 0 <= i < |Names(p)| ==> ',' !in Names(p)[i]
    ensures Commas(Join(Scan(START, Print(p)).tags)) == Names(p)
  {
    hide Print, Names, WellFormed, Join, Commas;
    FingerprintOfPrinted(p);
    JoinReadsBack(Names(p));
  }

  lemma ScanNothing(st: State)
    ensures Scan(st, "") == st
  {
  }
}
