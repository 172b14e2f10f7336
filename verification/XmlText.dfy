/** The two XML escapers and the two unescapers. */
module Xml {
  import opened Text

  /** `str::replace`: leftmost matches, without overlap. */
  function ReplaceAll(s: string, pattern: string, sub: string): string
    requires pattern != ""
  {
    if s == "" then ""
    else if pattern <= s then sub + ReplaceAll(s[|pattern|..], pattern, sub)
    else [s[0]] + ReplaceAll(s[1..], pattern, sub)
  }

  function XmlEscape(s: string): string {
    ReplaceAll(ReplaceAll(ReplaceAll(ReplaceAll(ReplaceAll(s,
      "&", "&amp;"), "<", "&lt;"), ">", "&gt;"), "\"", "&quot;"), "'", "&apos;")
  }

  function XmlUnescape(s: string): string {
    ReplaceAll(ReplaceAll(ReplaceAll(ReplaceAll(ReplaceAll(s,
      "&lt;", "<"), "&gt;", ">"), "&quot;", "\""), "&apos;", "'"), "&amp;", "&")
  }

  function EscapeChar(c: char): string {
    match c
    case '<' => "&lt;"
    case '>' => "&gt;"
    case '&' => "&amp;"
    case '"' => "&quot;"
    case '\'' => "&apos;"
    case _ => [c]
  }

  /** Control characters that XML does not allow. */
  predicate Dropped(c: char) { c < ' ' && c != '\t' && c != '\n' && c != '\r' }

  function WithoutDropped(s: string): string {
    if s == "" then ""
    else (if Dropped(s[0]) then "" else [s[0]]) + WithoutDropped(s[1..])
  }

  /** The per-character map, without dropping anything. */
  function EscapeEach(s: string): string {
    if s == "" then "" else EscapeChar(s[0]) + EscapeEach(s[1..])
  }

  /** The reports' escaper. */
  method XmlEscapeReport(s: string) returns (out: string)
    ensures out == EscapeEach(WithoutDropped(s))
  {
    hide EscapeEach, WithoutDropped, EscapeChar, Dropped;
    out := "";
    assert s[0..] == s;
    for i := 0 to |s|
      invariant out + EscapeEach(WithoutDropped(s[i..])) == EscapeEach(WithoutDropped(s))
    {
      var c := s[i];
      assert s[i..] == [c] + s[i + 1..];
      ReportStep(c, s[i + 1..]);
      if !Dropped(c) {
        out := out + EscapeChar(c);
      }
    }
    ReportEnd();
  }

  lemma ReportEnd()
    ensures EscapeEach(WithoutDropped("")) == ""
  {
  }

  lemma ReportStep(c: char, rest: string)
    ensures EscapeEach(WithoutDropped([c] + rest))
            == (if Dropped(c) then "" else EscapeChar(c)) + EscapeEach(WithoutDropped(rest))
  {
    assert ([c] + rest)[1..] == rest;
    if !Dropped(c) {
      assert ([c] + WithoutDropped(rest))[1..] == WithoutDropped(rest);
    } else {
      assert "" + WithoutDropped(rest) == WithoutDropped(rest);
    }
  }

  // ---- The replace chain escapes character by character ----

  /** The k-th replacement of the escaper. */
  function Special(k: nat): char
    requires k < 5
  {
    ['&', '<', '>', '"', '\''][k]
  }

  /** A character after the first k replacements. */
  function EscapeUpTo(k: nat, c: char): string
    requires k <= 5
  {
    if exists i :: 0 <= i < k && Special(i) == c then EscapeChar(c) else [c]
  }

  function EscapeEachUpTo(k: nat, s: string): string
    requires k <= 5
  {
    if s == "" then "" else EscapeUpTo(k, s[0]) + EscapeEachUpTo(k, s[1..])
  }

  lemma ReplaceCharStep(x: char, rest: string, c: char, sub: string)
    ensures ReplaceAll([x] + rest, [c], sub) == (if x == c then sub else [x]) + ReplaceAll(rest, [c], sub)
  {
    var s := [x] + rest;
    assert s[1..] == rest && s[0] == x;
    if x == c {
      assert [c] <= s;
    } else {
      assert [c][0] != s[0];
    }
  }

  lemma {:induction false} ReplaceSplits(a: string, b: string, c: char, sub: string)
    ensures ReplaceAll(a + b, [c], sub) == ReplaceAll(a, [c], sub) + ReplaceAll(b, [c], sub)
  {
    hide ReplaceAll;
    if a == "" {
      EmptyReplace(c, sub);
      assert a + b == b;
    } else {
      ReplaceCharStep(a[0], a[1..], c, sub);
      ReplaceCharStep(a[0], a[1..] + b, c, sub);
      ReplaceSplits(a[1..], b, c, sub);
      assert a == [a[0]] + a[1..];
      assert a + b == [a[0]] + (a[1..] + b);
    }
  }

  lemma {:induction false} ReplaceAbsent(s: string, c: char, sub: string)
    requires c !in s
    ensures ReplaceAll(s, [c], sub) == s
  {
    hide ReplaceAll;
    if s == "" {
      EmptyReplace(c, sub);
    } else {
      assert s == [s[0]] + s[1..];
      ReplaceCharStep(s[0], s[1..], c, sub);
      ReplaceAbsent(s[1..], c, sub);
    }
  }

  lemma ReplaceOne(c: char, sub: string)
    ensures ReplaceAll([c], [c], sub) == sub
  {
  }

  /** One replacement moves one stage on. */
  lemma {:induction false} EscapeStage(k: nat, s: string)
    requires k < 5
    ensures ReplaceAll(EscapeEachUpTo(k, s), [Special(k)], EscapeChar(Special(k))) == EscapeEachUpTo(k + 1, s)
  {
    hide EscapeChar, EscapeUpTo, ReplaceAll;
    if s == "" {
      EmptyReplace(Special(k), EscapeChar(Special(k)));
    } else {
      EscapeStage(k, s[1..]);
      ReplaceSplits(EscapeUpTo(k, s[0]), EscapeEachUpTo(k, s[1..]), Special(k), EscapeChar(Special(k)));
      EscapeCharStage(k, s[0]);
    }
  }

  lemma EmptyReplace(c: char, sub: string)
    ensures ReplaceAll("", [c], sub) == ""
  {
  }

  lemma EscapeCharStage(k: nat, c: char)
    requires k < 5
    ensures ReplaceAll(EscapeUpTo(k, c), [Special(k)], EscapeChar(Special(k))) == EscapeUpTo(k + 1, c)
  {
    hide ReplaceAll;
    if c == Special(k) {
      assert Special(k) == c;
      assert EscapeUpTo(k, c) == [c];
      ReplaceOne(c, EscapeChar(c));
    } else {
      StageAbsent(k, c);
      ReplaceAbsent(EscapeUpTo(k, c), Special(k), EscapeChar(Special(k)));
      assert (exists i :: 0 <= i < k && Special(i) == c) <==> (exists i :: 0 <= i < k + 1 && Special(i) == c);
    }
  }

  lemma StageAbsent(k: nat, c: char)
    requires k < 5 && c != Special(k)
    ensures Special(k) !in EscapeUpTo(k, c)
  {
    if exists i :: 0 <= i < k && Special(i) == c {
      assert k > 0;
      assert '&' != Special(k);
    }
  }

  lemma {:induction false} NoStage(s: string)
    ensures EscapeEachUpTo(0, s) == s
  {
    if s != "" {
      NoStage(s[1..]);
    }
  }

  lemma {:induction false} AllStages(s: string)
    ensures EscapeEachUpTo(5, s) == EscapeEach(s)
  {
    hide Special, EscapeChar;
    if s != "" {
      AllStages(s[1..]);
      LastStage(s[0]);
    }
  }

  lemma LastStage(c: char)
    ensures EscapeUpTo(5, c) == EscapeChar(c)
  {
    if c == '&' { assert Special(0) == c; }
    if c == '<' { assert Special(1) == c; }
    if c == '>' { assert Special(2) == c; }
    if c == '"' { assert Special(3) == c; }
    if c == '\'' { assert Special(4) == c; }
  }

  /** The five-pass chain is the per-character map on every string. */
  lemma ChainIsMap(s: string)
    ensures XmlEscape(s) == EscapeEach(s)
  {
    hide ReplaceAll, EscapeEach, EscapeEachUpTo;
    NoStage(s);
    EscapeStage(0, s);
    EscapeStage(1, s);
    EscapeStage(2, s);
    EscapeStage(3, s);
    EscapeStage(4, s);
    AllStages(s);
  }

  // ---- The five-pass unescaper inverts the escaper ----

  /** The k-th replacement of the unescaper. */
  function Unspecial(k: nat): char
    requires k < 5
  {
    ['<', '>', '"', '\'', '&'][k]
  }

  predicate IsSpecial(c: char) { c == '&' || c == '<' || c == '>' || c == '"' || c == '\'' }

  /** What the first k replacements of the unescaper leave of one escaped character. */
  function RestoredUpTo(k: nat, c: char): string
    requires k <= 5
  {
    if exists i :: 0 <= i < k && Unspecial(i) == c then [c] else EscapeChar(c)
  }

  function RestoredEachUpTo(k: nat, s: string): string
    requires k <= 5
  {
    if s == "" then "" else RestoredUpTo(k, s[0]) + RestoredEachUpTo(k, s[1..])
  }

  /** A stretch in which no match can begin is copied. */
  lemma {:induction false} ReplaceSkips(token: string, rest: string, pattern: string, sub: string)
    requires pattern != ""
    requires token != "" ==> !(pattern <= token + rest)
    requires forall i :: 1 <= i < |token| ==> token[i] != pattern[0]
    ensures ReplaceAll(token + rest, pattern, sub) == token + ReplaceAll(rest, pattern, sub)
  {
    if token == "" {
      assert token + rest == rest;
    } else {
      assert (token + rest)[1..] == token[1..] + rest;
      if token[1..] != "" {
        assert (token[1..] + rest)[0] == token[1];
      }
      ReplaceSkips(token[1..], rest, pattern, sub);
    }
  }

  lemma ReplaceHits(rest: string, pattern: string, sub: string)
    requires pattern != ""
    ensures ReplaceAll(pattern + rest, pattern, sub) == sub + ReplaceAll(rest, pattern, sub)
  {
    assert (pattern + rest)[|pattern|..] == rest;
  }

  /** No entity begins another, wherever the text goes on. */
  lemma EntitiesPrefixFree(c: char, d: char, rest: string)
    requires IsSpecial(c) && IsSpecial(d) && c != d
    ensures !(EscapeChar(c) <= EscapeChar(d) + rest)
  {
    var x, y := EscapeChar(c), EscapeChar(d) + rest;
    assert x[1] != y[1] || x[2] != y[2];
  }

  /** An entity has its ampersand in front only; another character is itself. */
  lemma EscapeShape(c: char)
    ensures EscapeChar(c) != ""
    ensures IsSpecial(c) ==> EscapeChar(c)[0] == '&' && forall i :: 1 <= i < |EscapeChar(c)| ==> EscapeChar(c)[i] != '&'
    ensures !IsSpecial(c) ==> EscapeChar(c) == [c]
  {
  }

  lemma {:induction false} RestoreStage(k: nat, s: string)
    requires k < 5
    ensures ReplaceAll(RestoredEachUpTo(k, s), EscapeChar(Unspecial(k)), [Unspecial(k)]) == RestoredEachUpTo(k + 1, s)
  {
    hide EscapeChar, ReplaceAll, Unspecial;
    EscapeShape(Unspecial(k));
    if s == "" {
      ReplaceEmpty(EscapeChar(Unspecial(k)), [Unspecial(k)]);
    } else {
      RestoreStage(k, s[1..]);
      RestoreCharStage(k, s[0], RestoredEachUpTo(k, s[1..]));
    }
  }

  lemma ReplaceEmpty(pattern: string, sub: string)
    requires pattern != ""
    ensures ReplaceAll("", pattern, sub) == ""
  {
  }

  lemma UnspecialIsSpecial(k: nat)
    requires k < 5
    ensures IsSpecial(Unspecial(k))
  {
  }

  lemma RestoredLater(k: nat, c: char)
    requires k < 5
    ensures c != Unspecial(k) ==> RestoredUpTo(k + 1, c) == RestoredUpTo(k, c)
    ensures c == Unspecial(k) ==> RestoredUpTo(k + 1, c) == [c] && RestoredUpTo(k, c) == EscapeChar(c)
    ensures k < 4 ==> Unspecial(k) != '&'
    ensures RestoredUpTo(k, '&') == EscapeChar('&')
  {
    hide EscapeChar;
    if c == Unspecial(k) {
      assert Unspecial(k) == c;
    }
  }

  lemma RestoreCharStage(k: nat, c: char, rest: string)
    requires k < 5
    requires EscapeChar(Unspecial(k)) != ""
    ensures ReplaceAll(RestoredUpTo(k, c) + rest, EscapeChar(Unspecial(k)), [Unspecial(k)])
            == RestoredUpTo(k + 1, c) + ReplaceAll(rest, EscapeChar(Unspecial(k)), [Unspecial(k)])
  {
    hide EscapeChar, ReplaceAll, Unspecial, IsSpecial;
    var pattern, sub := EscapeChar(Unspecial(k)), [Unspecial(k)];
    UnspecialIsSpecial(k);
    EscapeShape(Unspecial(k));
    EscapeShape(c);
    RestoredLater(k, c);
    if c == Unspecial(k) {
      ReplaceHits(rest, pattern, sub);
    } else {
      var token := RestoredUpTo(k, c);
      TokenCannotMatch(k, c, rest);
      ReplaceSkips(token, rest, pattern, sub);
    }
  }

  lemma TokenCannotMatch(k: nat, c: char, rest: string)
    requires k < 5 && c != Unspecial(k)
    ensures var token, pattern := RestoredUpTo(k, c), EscapeChar(Unspecial(k));
            && pattern != ""
            && !(pattern <= token + rest)
            && (forall i :: 1 <= i < |token| ==> token[i] != pattern[0])
  {
    hide EscapeChar, Unspecial, IsSpecial;
    var token, pattern := RestoredUpTo(k, c), EscapeChar(Unspecial(k));
    UnspecialIsSpecial(k);
    EscapeShape(Unspecial(k));
    EscapeShape(c);
    RestoredLater(k, c);
    SpecialAmpersand();
    if token == [c] {
      if c == '&' {
        assert token == EscapeChar('&');
        EntitiesPrefixFree(Unspecial(k), c, rest);
      } else {
        assert (token + rest)[0] == c;
      }
    } else {
      EntitiesPrefixFree(Unspecial(k), c, rest);
    }
  }

  lemma SpecialAmpersand()
    ensures IsSpecial('&')
  {
  }

  lemma {:induction false} RestoredStart(s: string)
    ensures RestoredEachUpTo(0, s) == EscapeEach(s)
  {
    hide EscapeChar;
    if s != "" {
      RestoredStart(s[1..]);
    }
  }

  lemma {:induction false} RestoredEnd(s: string)
    ensures RestoredEachUpTo(5, s) == s
  {
    hide EscapeChar, Unspecial, IsSpecial;
    if s != "" {
      RestoredEnd(s[1..]);
      LastRestored(s[0]);
    }
  }

  lemma LastRestored(c: char)
    ensures RestoredUpTo(5, c) == [c]
  {
    if c == '<' { assert Unspecial(0) == c; }
    if c == '>' { assert Unspecial(1) == c; }
    if c == '"' { assert Unspecial(2) == c; }
    if c == '\'' { assert Unspecial(3) == c; }
    if c == '&' { assert Unspecial(4) == c; }
  }

  /** `xml_unescape(xml_escape(s)) == s` for every string. */
  lemma UnescapeInvertsEscape(s: string)
    ensures XmlUnescape(XmlEscape(s)) == s
  {
    hide ReplaceAll, EscapeEach, RestoredEachUpTo, XmlEscape;
    ChainIsMap(s);
    RestoredStart(s);
    RestoreStage(0, s);
    RestoreStage(1, s);
    RestoreStage(2, s);
    RestoreStage(3, s);
    RestoreStage(4, s);
    RestoredEnd(s);
  }

  // ---- The sitemap's one-pass decoder ----

  /** The position of the first semicolon, or the length if there is none. */
  function EntityEnd(s: string): (n: nat)
    ensures n <= |s|
    ensures n < |s| ==> s[n] == ';'
    ensures forall i :: 0 <= i < n ==> s[i] != ';'
  {
    if s == "" || s[0] == ';' then 0 else 1 + EntityEnd(s[1..])
  }

  function DecodeEntity(entity: string, closed: bool): string {
    if closed && entity == "amp" then "&"
    else if closed && entity == "lt" then "<"
    else if closed && entity == "gt" then ">"
    else if closed && entity == "quot" then "\""
    else if closed && entity == "apos" then "'"
    else "&" + entity + (if closed then ";" else "")
  }

  /** What the front of a text decodes to, and how much of it that takes. */
  function Front(s: string): (r: (string, nat))
    requires s != ""
    ensures 0 < r.1 <= |s|
  {
    if s[0] == '&' then
      var n := EntityEnd(s[1..]);
      if n < |s| - 1 then (DecodeEntity(s[1..1 + n], true), n + 2) else (DecodeEntity(s[1..], false), |s|)
    else ([s[0]], 1)
  }

  function Decode(s: string): string
    decreases |s|
  {
    if s == "" then "" else Front(s).0 + Decode(s[Front(s).1..])
  }

  method DecodeXmlEntities(s: string) returns (result: string)
    ensures result == Decode(s)
  {
    hide Decode, DecodeEntity;
    result := "";
    var i := 0;
    assert s[0..] == s;
    while i < |s|
      invariant 0 <= i <= |s|
      invariant result + Decode(s[i..]) == Decode(s)
    {
      var c := s[i];
      if c == '&' {
        var entity, closed := ReadEntity(s, i + 1);
        result := result + DecodeEntity(entity, closed);
        if closed {
          assert s[i..] == ['&'] + (entity + ([';'] + s[i + |entity| + 2..]));
          ClosedEntity(entity, s[i + |entity| + 2..]);
          i := i + |entity| + 2;
        } else {
          assert s[i..] == ['&'] + entity;
          OpenEntity(entity);
          i := i + |entity| + 1;
          DecodeEmpty(s[i..]);
        }
      } else {
        PlainRead(s[i..]);
        assert s[i..][1..] == s[i + 1..];
        result := result + [c];
        i := i + 1;
      }
    }
    DecodeEmpty(s[i..]);
  }

  /** Collects the characters up to a semicolon, or all of them if none comes. */
  method ReadEntity(s: string, start: nat) returns (entity: string, closed: bool)
    requires start <= |s|
    ensures start + |entity| <= |s| && entity == s[start..start + |entity|]
    ensures forall k :: 0 <= k < |entity| ==> entity[k] != ';'
    ensures closed ==> start + |entity| < |s| && s[start + |entity|] == ';'
    ensures !closed ==> start + |entity| == |s|
  {
    entity := "";
    var i := start;
    while i < |s|
      invariant start <= i <= |s|
      invariant entity == s[start..i]
      invariant forall k :: 0 <= k < |entity| ==> entity[k] != ';'
    {
      if s[i] == ';' {
        return entity, true;
      }
      entity := entity + [s[i]];
      i := i + 1;
    }
    return entity, false;
  }

  lemma DecodeEmpty(s: string)
    requires s == ""
    ensures Decode(s) == ""
  {
  }

  lemma DecodeStep(s: string)
    requires s != ""
    ensures Decode(s) == Front(s).0 + Decode(s[Front(s).1..])
  {
    hide Front;
  }

  lemma PlainRead(s: string)
    requires s != "" && s[0] != '&'
    ensures Decode(s) == [s[0]] + Decode(s[1..])
  {
    hide Decode;
    DecodeStep(s);
  }

  lemma EntityEndIs(s: string, n: nat)
    requires n <= |s| && (n < |s| ==> s[n] == ';') && forall k :: 0 <= k < n ==> s[k] != ';'
    ensures EntityEnd(s) == n
  {
    var m := EntityEnd(s);
    assert !(m < n);
  }

  /** An entity up to its semicolon is decoded as a whole. */
  lemma ClosedEntity(entity: string, rest: string)
    requires ';' !in entity
    ensures Decode(['&'] + (entity + ([';'] + rest))) == DecodeEntity(entity, true) + Decode(rest)
  {
    hide Decode, DecodeEntity, EntityEnd;
    var tail := entity + ([';'] + rest);
    var s := ['&'] + tail;
    DecodeStep(s);
    assert s[1..] == tail;
    assert tail[|entity|] == ';';
    EntityEndIs(tail, |entity|);
    assert s[1..1 + |entity|] == entity;
    assert s[|entity| + 2..] == rest;
  }

  /** Without a semicolon the rest of the text is copied. */
  lemma OpenEntity(entity: string)
    requires ';' !in entity
    ensures Decode(['&'] + entity) == DecodeEntity(entity, false)
  {
    hide Decode, DecodeEntity, EntityEnd;
    var s := ['&'] + entity;
    DecodeStep(s);
    assert s[1..] == entity;
    EntityEndIs(entity, |entity|);
    DecodeEmpty(s[|s|..]);
    assert DecodeEntity(entity, false) + "" == DecodeEntity(entity, false);
  }

  lemma EscapeRead(c: char, rest: string)
    ensures Decode(EscapeChar(c) + rest) == [c] + Decode(rest)
  {
    hide Decode, DecodeEntity;
    var token := EscapeChar(c);
    if IsSpecial(c) {
      var entity := token[1..|token| - 1];
      assert token + rest == ['&'] + (entity + ([';'] + rest));
      ClosedEntity(entity, rest);
      NamedEntity(c);
    } else {
      assert (token + rest)[1..] == rest;
      PlainRead(token + rest);
    }
  }

  lemma NamedEntity(c: char)
    requires IsSpecial(c)
    ensures var token := EscapeChar(c); DecodeEntity(token[1..|token| - 1], true) == [c]
  {
    assert EscapeChar('&')[1..4] == "amp";
    assert EscapeChar('<')[1..3] == "lt";
    assert EscapeChar('>')[1..3] == "gt";
    assert EscapeChar('"')[1..5] == "quot";
    assert EscapeChar('\'')[1..5] == "apos";
  }

  /** The one-pass decoder inverts the escaper on every string. */
  lemma {:induction false} DecodeInvertsEscape(s: string)
    ensures Decode(EscapeEach(s)) == s
  {
    hide Decode, EscapeChar;
    if s == "" {
      DecodeEmpty("");
    } else {
      EscapeRead(s[0], EscapeEach(s[1..]));
      DecodeInvertsEscape(s[1..]);
    }
  }

  // ---- Entities it does not know ----

  /** Only the five named entities, with their semicolon, are decoded; any other is copied, semicolon and all. */
  lemma UnknownEntityCopied(entity: string, rest: string)
    requires ';' !in entity && entity !in ["amp", "lt", "gt", "quot", "apos"]
    ensures Decode("&" + (entity + (";" + rest))) == "&" + (entity + (";" + Decode(rest)))
  {
    hide Decode;
    ClosedEntity(entity, rest);
    assert ["amp", "lt", "gt", "quot", "apos"][0] == "amp" && ["amp", "lt", "gt", "quot", "apos"][1] == "lt"
        && ["amp", "lt", "gt", "quot", "apos"][2] == "gt" && ["amp", "lt", "gt", "quot", "apos"][3] == "quot"
        && ["amp", "lt", "gt", "quot", "apos"][4] == "apos";
    assert ("&" + entity + ";") + Decode(rest) == "&" + (entity + (";" + Decode(rest)));
  }

  /** The five are decoded, each to its character. */
  lemma KnownEntityDecoded(rest: string)
    ensures Decode("&amp;" + rest) == "&" + Decode(rest)
    ensures Decode("&lt;" + rest) == "<" + Decode(rest)
    ensures Decode("&gt;" + rest) == ">" + Decode(rest)
    ensures Decode("&quot;" + rest) == "\"" + Decode(rest)
    ensures Decode("&apos;" + rest) == "'" + Decode(rest)
  {
    hide Decode;
    KnownEntity("amp", "&", rest);
    KnownEntity("lt", "<", rest);
    KnownEntity("gt", ">", rest);
    KnownEntity("quot", "\"", rest);
    KnownEntity("apos", "'", rest);
    assert "&" + "amp" + ";" == "&amp;" && "&" + "lt" + ";" == "&lt;" && "&" + "gt" + ";" == "&gt;";
    assert "&" + "quot" + ";" == "&quot;" && "&" + "apos" + ";" == "&apos;";
  }

  lemma KnownEntity(entity: string, decoded: string, rest: string)
    requires ';' !in entity && DecodeEntity(entity, true) == decoded
    ensures Decode("&" + entity + ";" + rest) == decoded + Decode(rest)
  {
    hide Decode, DecodeEntity;
    ClosedEntity(entity, rest);
    assert "&" + entity + ";" + rest == ['&'] + (entity + ([';'] + rest));
  }

  /** Without a semicolon nothing is decoded. */
  lemma UnclosedEntityCopied(entity: string)
    requires ';' !in entity
    ensures Decode("&" + entity) == "&" + entity
  {
    hide Decode;
    OpenEntity(entity);
    assert "&" + entity + "" == "&" + entity;
  }

  // ---- Where the two escapers differ ----

  /** What is dropped: the characters below the blank, but for tab, line feed and carriage return; what is not stays
      as often as it was. */
  lemma {:induction false} DroppedCount(s: string, c: char)
    ensures multiset(WithoutDropped(s))[c]
            == if c as int < 32 && (c as int) !in {9, 10, 13} then 0 else multiset(s)[c]
  {
    if s != "" {
      DroppedCount(s[1..], c);
      assert s == [s[0]] + s[1..];
    }
  }

  lemma {:induction false} WithoutDroppedClean(s: string)
    ensures forall c :: c in WithoutDropped(s) ==> !Dropped(c)
    ensures (forall c :: c in s ==> !Dropped(c)) ==> WithoutDropped(s) == s
  {
    if s != "" {
      WithoutDroppedClean(s[1..]);
      assert s == [s[0]] + s[1..];
    }
  }

  /** The escapers agree exactly on the strings that hold no dropped control character. */
  lemma EscapersAgreeIff(s: string)
    ensures EscapeEach(WithoutDropped(s)) == XmlEscape(s) <==> forall c :: c in s ==> !Dropped(c)
  {
    hide XmlEscape, EscapeEach, Dropped, WithoutDropped, Decode;
    ChainIsMap(s);
    WithoutDroppedClean(s);
    DecodeInvertsEscape(s);
    DecodeInvertsEscape(WithoutDropped(s));
  }

  /** Either unescaper gives back what a report's escaper was given, less the characters it drops. */
  lemma ReportRoundTrip(s: string)
    ensures Decode(EscapeEach(WithoutDropped(s))) == WithoutDropped(s)
    ensures XmlUnescape(EscapeEach(WithoutDropped(s))) == WithoutDropped(s)
  {
    hide EscapeEach, WithoutDropped, Decode, XmlEscape, XmlUnescape;
    DecodeInvertsEscape(WithoutDropped(s));
    ChainIsMap(WithoutDropped(s));
    UnescapeInvertsEscape(WithoutDropped(s));
  }
}
