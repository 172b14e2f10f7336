/** Extracting the `<loc>` URLs of a sitemap. URL parsing is an arbitrary partial function. */
module Sitemap {
  import opened Wrappers
  import opened Text
  import opened Xml

  datatype Url = Url(text: string, scheme: string)
  type Parser = string -> Option<Url>

  const OPEN := "<loc>"
  const CLOSE := "</loc>"

  /** The position of the first occurrence of a pattern. */
  function Find(s: string, pattern: string): (at: Option<nat>)
    ensures at.Some? ==> at.value + |pattern| <= |s|
  {
    if pattern <= s then Some(0)
    else if s == "" then None
    else
      match Find(s[1..], pattern)
      case None => None
      case Some(n) => Some(n + 1)
  }

  function TrimStart(s: string): string {
    if s != "" && IsSpace(s[0]) then TrimStart(s[1..]) else s
  }

  function TrimEnd(s: string): string {
    if s != "" && IsSpace(s[|s| - 1]) then TrimEnd(s[..|s| - 1]) else s
  }

  function Trim(s: string): string { TrimEnd(TrimStart(s)) }

  /** The URL of one `<loc>` text, if it parses and is http or https. */
  function Accept(parse: Parser, text: string): seq<Url> {
    match parse(Decode(Trim(text)))
    case None => []
    case Some(u) => if u.scheme == "http" || u.scheme == "https" then [u] else []
  }

  function Locations(parse: Parser, body: string): seq<Url>
    decreases |body|
  {
    match Find(body, OPEN)
    case None => []
    case Some(start) =>
      var after := body[start + 5..];
      match Find(after, CLOSE)
      case None => []
      case Some(end) =>
        var text := after[..end];
        match Find(text, OPEN)
        case Some(nested) => Locations(parse, after[nested..])
        case None => Accept(parse, text) + Locations(parse, after[end + 6..])
  }

  /** The loop shrinks the remaining text even when a `<loc>` is nested in another. */
  method ParseSitemap(parse: Parser, body: string) returns (urls: seq<Url>)
    ensures urls == Locations(parse, body)
  {
    hide Find, Accept;
    urls := [];
    var rest := body;
    while true
      invariant urls + Locations(parse, rest) == Locations(parse, body)
      decreases |rest|
    {
      var start := Find(rest, OPEN);
      if start.None? {
        break;
      }
      var after := rest[start.value + 5..];
      var end := Find(after, CLOSE);
      if end.None? {
        break;
      }
      var text := after[..end.value];
      var nested := Find(text, OPEN);
      if nested.Some? {
        rest := after[nested.value..];
      } else {
        urls := urls + Accept(parse, text);
        rest := after[end.value + 6..];
      }
    }
  }

  // ---- Printing a sitemap and reading it back ----

  /** A `<loc>`, what stands in front of it, and the white space around its text. */
  datatype Entry = Entry(filler: string, lead: string, url: string, trail: string)

  function Print(entries: seq<Entry>, tail: string): string {
    if entries == [] then tail
    else entries[0].filler + (OPEN + (Padded(entries[0]) + (CLOSE + Print(entries[1..], tail))))
  }

  function Padded(e: Entry): string { e.lead + EscapeEach(e.url) + e.trail }

  /** The URLs of the entries that parse and whose scheme is http or https; the others are left out. */
  function WebUrls(parse: Parser, entries: seq<Entry>): seq<Url> {
    if entries == [] then []
    else
      var url := parse(entries[0].url);
      (if url.Some? && url.value.scheme in {"http", "https"} then [url.value] else []) + WebUrls(parse, entries[1..])
  }

  /** Where a pattern is found is its first occurrence; if it is not found there is none. */
  lemma {:induction false} FindIsFirst(s: string, pattern: string)
    ensures Find(s, pattern).Some? ==>
              && pattern <= s[Find(s, pattern).value..]
              && forall i :: 0 <= i < Find(s, pattern).value ==> !(pattern <= s[i..])
    ensures Find(s, pattern).None? ==> forall i :: 0 <= i <= |s| ==> !(pattern <= s[i..])
  {
    assert s[0..] == s;
    if !(pattern <= s) && s != "" {
      FindIsFirst(s[1..], pattern);
      forall i | 1 <= i <= |s|
        ensures s[i..] == s[1..][i - 1..]
      {
      }
    }
  }

  /** Trimming takes the white space around a text that has none at its ends. */
  lemma TrimPadded(lead: string, text: string, trail: string)
    requires IsGap(lead) && IsGap(trail) && Trim(text) == text
    ensures Trim(lead + text + trail) == text
  {
    hide IsGap, TrimStart, TrimEnd;
    assert lead + text + trail == lead + (text + trail);
    TrimStartGap(lead, text + trail);
    if text == "" {
      assert text + trail == trail && trail + "" == trail;
      TrimStartGap(trail, "");
      TrimNothing();
    } else {
      TrimmedEnds(text);
      TrimStartShorter(text + trail);
      TrimEndGap(text, trail);
    }
  }

  lemma TrimNothing()
    ensures TrimStart("") == "" && TrimEnd("") == ""
  {
  }

  lemma {:induction false} TrimStartGap(gap: string, rest: string)
    requires IsGap(gap)
    ensures TrimStart(gap + rest) == TrimStart(rest)
  {
    if gap == "" {
      assert gap + rest == rest;
    } else {
      assert gap[0] in gap;
      assert (gap + rest)[1..] == gap[1..] + rest;
      TrimStartGap(gap[1..], rest);
    }
  }

  lemma {:induction false} TrimEndGap(text: string, gap: string)
    requires IsGap(gap) && text != "" && !IsSpace(text[|text| - 1])
    ensures TrimEnd(text + gap) == text
  {
    if gap == "" {
      assert text + gap == text;
    } else {
      assert gap[|gap| - 1] in gap;
      assert (text + gap)[..|text + gap| - 1] == text + gap[..|gap| - 1];
      TrimEndGap(text, gap[..|gap| - 1]);
    }
  }

  lemma GapHasNoBracket(gap: string)
    requires IsGap(gap)
    ensures '<' !in gap
  {
  }

  /** A pattern that does not start anew inside itself is found where it was put. */
  lemma {:induction false} FindPut(filler: string, pattern: string, rest: string)
    requires pattern != "" && pattern[0] !in pattern[1..]
    requires Find(filler, pattern) == None
    ensures Find(filler + (pattern + rest), pattern) == Some(|filler|)
  {
    var s := filler + (pattern + rest);
    if filler == "" {
      assert s == pattern + rest;
      assert pattern <= s;
    } else {
      NotAcross(filler, pattern, rest);
      assert s[1..] == filler[1..] + (pattern + rest);
      FindPut(filler[1..], pattern, rest);
    }
  }

  lemma NotAcross(filler: string, pattern: string, rest: string)
    requires pattern != "" && pattern[0] !in pattern[1..]
    requires filler != "" && !(pattern <= filler)
    ensures !(pattern <= filler + (pattern + rest))
  {
    var s := filler + (pattern + rest);
    assert s[|filler|] == pattern[0];
    if |filler| < |pattern| {
      assert pattern[|filler|] == pattern[1..][|filler| - 1];
    } else {
      assert s[..|filler|] == filler;
      assert s[..|pattern|] == filler[..|pattern|];
    }
  }

  lemma {:induction false} FindAbsent(s: string, pattern: string)
    requires pattern != "" && pattern[0] !in s
    ensures Find(s, pattern) == None
  {
    if s != "" {
      assert s[0] in s;
      FindAbsent(s[1..], pattern);
    }
  }

  lemma {:induction false} EscapedHasNoBracket(s: string)
    ensures '<' !in EscapeEach(s)
  {
    if s != "" {
      EscapedHasNoBracket(s[1..]);
    }
  }

  lemma {:induction false} EscapedLast(s: string)
    requires s != ""
    ensures EscapeEach(s) != ""
    ensures var last := EscapeEach(s)[|EscapeEach(s)| - 1]; last == ';' || last == s[|s| - 1]
    ensures var first := EscapeEach(s)[0]; first == '&' || first == s[0]
  {
    hide EscapeChar;
    EscapeEnds(s[0]);
    if s[1..] == "" {
      assert EscapeEach(s) == EscapeChar(s[0]);
    } else {
      EscapedLast(s[1..]);
    }
  }

  lemma EscapeEnds(c: char)
    ensures EscapeChar(c) != ""
    ensures EscapeChar(c)[0] == '&' || EscapeChar(c)[0] == c
    ensures var last := EscapeChar(c)[|EscapeChar(c)| - 1]; last == ';' || last == c
  {
  }

  /** Escaping a trimmed text leaves nothing to trim. */
  lemma EscapedTrimmed(s: string)
    requires Trim(s) == s
    ensures Trim(EscapeEach(s)) == EscapeEach(s)
  {
    hide EscapeEach, TrimEnd, TrimStart;
    if s == "" {
      EscapedEmpty();
    } else {
      TrimmedEnds(s);
      EscapedLast(s);
      NothingToTrim(EscapeEach(s));
    }
  }

  lemma EscapedEmpty()
    ensures EscapeEach("") == ""
  {
  }

  lemma NothingToTrim(s: string)
    requires s != "" && !IsSpace(s[0]) && !IsSpace(s[|s| - 1])
    ensures Trim(s) == s
  {
  }

  lemma TrimmedEnds(s: string)
    requires s != "" && Trim(s) == s
    ensures !IsSpace(s[0]) && !IsSpace(s[|s| - 1])
  {
    TrimStartShorter(s);
    TrimEndShorter(TrimStart(s));
  }

  lemma {:induction false} TrimStartShorter(s: string)
    ensures |TrimStart(s)| <= |s|
    ensures s != "" && IsSpace(s[0]) ==> |TrimStart(s)| < |s|
    ensures s != "" && !IsSpace(s[0]) ==> TrimStart(s) == s
  {
    if s != "" && IsSpace(s[0]) {
      TrimStartShorter(s[1..]);
    }
  }

  lemma {:induction false} TrimEndShorter(s: string)
    ensures |TrimEnd(s)| <= |s|
    ensures s != "" && IsSpace(s[|s| - 1]) ==> |TrimEnd(s)| < |s|
  {
    if s != "" && IsSpace(s[|s| - 1]) {
      TrimEndShorter(s[..|s| - 1]);
    }
  }

  /** Whatever lies between the entries, as long as it opens no `<loc>` of its own, and whatever white space
      surrounds their texts, the http and https URLs come back, in order, and no others. */
  lemma {:induction false} SitemapRoundTrip(parse: Parser, entries: seq<Entry>, tail: string)
    requires forall e :: e in entries ==>
               Find(e.filler, OPEN) == None && IsGap(e.lead) && IsGap(e.trail) && Trim(e.url) == e.url
    requires Find(tail, OPEN) == None
    ensures Locations(parse, Print(entries, tail)) == WebUrls(parse, entries)
  {
    hide Find, Trim, EscapeEach, Decode, IsGap, Padded;
    if entries != [] {
      var e, rest := entries[0], Print(entries[1..], tail);
      var padded := Padded(e);
      SitemapRoundTrip(parse, entries[1..], tail);
      FindPut(e.filler, OPEN, padded + (CLOSE + rest));
      PaddedRead(e);
      FindAbsent(padded, CLOSE);
      FindAbsent(padded, OPEN);
      FindPut(padded, CLOSE, rest);
      var body := Print(entries, tail);
      var after := body[|e.filler| + 5..];
      assert after == padded + (CLOSE + rest);
      assert after[..|padded|] == padded;
      assert after[|padded| + 6..] == rest;
    }
  }

  lemma PaddedRead(e: Entry)
    requires IsGap(e.lead) && IsGap(e.trail) && Trim(e.url) == e.url
    ensures '<' !in Padded(e) && Decode(Trim(Padded(e))) == e.url
  {
    hide Trim, EscapeEach, Decode, IsGap;
    GapHasNoBracket(e.lead);
    GapHasNoBracket(e.trail);
    EscapedHasNoBracket(e.url);
    EscapedTrimmed(e.url);
    TrimPadded(e.lead, EscapeEach(e.url), e.trail);
    DecodeInvertsEscape(e.url);
  }

  /** Nothing but http and https comes out of any body. */
  lemma {:induction false} OnlyWeb(parse: Parser, body: string)
    ensures forall u :: u in Locations(parse, body) ==> u.scheme == "http" || u.scheme == "https"
    decreases |body|
  {
    hide Find, Trim, Decode;
    var start := Find(body, OPEN);
    if start.Some? {
      var after := body[start.value + 5..];
      var end := Find(after, CLOSE);
      if end.Some? {
        var nested := Find(after[..end.value], OPEN);
        if nested.Some? {
          OnlyWeb(parse, after[nested.value..]);
        } else {
          OnlyWeb(parse, after[end.value + 6..]);
        }
      }
    }
  }

  /** A `<loc>` that opens inside another takes over: the outer one is skipped, the inner one read. */
  lemma NestedLocTakesOver(parse: Parser, junk: string, text: string, rest: string)
    requires Find(junk, OPEN) == None
    requires Find(junk + (OPEN + text), CLOSE) == None
    ensures var inner := OPEN + (text + (CLOSE + rest));
            Locations(parse, OPEN + (junk + inner)) == Locations(parse, inner)
  {
    hide Find, Accept;
    var inner := OPEN + (text + (CLOSE + rest));
    var body := OPEN + (junk + inner);
    FindStart(OPEN, junk + inner);
    assert body[5..] == junk + inner;
    assert junk + inner == (junk + (OPEN + text)) + (CLOSE + rest);
    FindPut(junk + (OPEN + text), CLOSE, rest);
    assert (junk + inner)[..|junk| + 5 + |text|] == junk + (OPEN + text);
    FindPut(junk, OPEN, text);
    assert (junk + inner)[|junk|..] == inner;
  }

  lemma FindStart(pattern: string, rest: string)
    ensures Find(pattern + rest, pattern) == Some(0)
  {
    assert pattern <= pattern + rest;
  }
}
