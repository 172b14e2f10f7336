/** The string operations of the source's standard library that the models share. */
module Text {
  predicate StartsWith(s: string, prefix: string) { prefix <= s }

  predicate EndsWith(s: string, suffix: string) {
    |suffix| <= |s| && s[|s| - |suffix|..] == suffix
  }

  predicate IsSpace(c: char) { c == ' ' || '\t' <= c <= '\r' }

  /** `trim_start_matches` with a character. */
  function TrimStartChar(s: string, c: char): string {
    if s != "" && s[0] == c then TrimStartChar(s[1..], c) else s
  }

  /** `trim_end_matches` with a character. */
  function TrimEndChar(s: string, c: char): string {
    if s != "" && s[|s| - 1] == c then TrimEndChar(s[..|s| - 1], c) else s
  }

  /** `trim_start_matches` with a string: every leading copy goes. */
  function TrimStartString(s: string, prefix: string): string
    requires prefix != ""
  {
    if prefix <= s then TrimStartString(s[|prefix|..], prefix) else s
  }

  /** `split_whitespace`: the maximal runs of characters that are not white space. */
  function SplitWhitespace(s: string): seq<string> {
    if s == "" then []
    else if IsSpace(s[0]) then SplitWhitespace(s[1..])
    else
      var n := WordLength(s);
      [s[..n]] + SplitWhitespace(s[n..])
  }

  function WordLength(s: string): (n: nat)
    ensures n <= |s|
    ensures s != "" && !IsSpace(s[0]) ==> n > 0
  {
    if s == "" || IsSpace(s[0]) then 0 else 1 + WordLength(s[1..])
  }

  function LowerChar(c: char): char { if 'A' <= c <= 'Z' then c - 'A' + 'a' else c }

  function Lower(s: string): (r: string)
    ensures |r| == |s|
    ensures forall i :: 0 <= i < |s| ==> r[i] == LowerChar(s[i])
  {
    seq(|s|, i requires 0 <= i < |s| => LowerChar(s[i]))
  }

  // ---- What these operations do ----

  /** White space is the blank and the five control characters from tab to carriage return. */
  lemma IsSpaceIff(c: char)
    ensures IsSpace(c) <==> (c as int) in {9, 10, 11, 12, 13, 32}
  {
  }

  /** Lower case takes codes 65 to 90 to those 32 above and leaves all other characters alone. */
  lemma LowerCharCodes(c: char)
    ensures 65 <= c as int <= 90 ==> LowerChar(c) as int == c as int + 32
    ensures !(65 <= c as int <= 90) ==> LowerChar(c) == c
  {
  }

  /** Words with a gap in front of each and one behind the last. */
  function Spaced(words: seq<string>, gaps: seq<string>): string
    requires |gaps| == |words| + 1
  {
    if words == [] then gaps[0] else gaps[0] + (words[0] + Spaced(words[1..], gaps[1..]))
  }

  predicate IsGap(gap: string) { forall c :: c in gap ==> IsSpace(c) }

  predicate IsWord(word: string) { word != "" && forall c :: c in word ==> !IsSpace(c) }

  /** Splitting at white space finds the words, whatever the gaps. */
  lemma {:induction false} SplitSpaced(words: seq<string>, gaps: seq<string>)
    requires |gaps| == |words| + 1
    requires forall w :: w in words ==> IsWord(w)
    requires forall i :: 0 <= i < |gaps| ==> IsGap(gaps[i])
    requires forall i :: 0 < i < |words| ==> gaps[i] != ""
    ensures SplitWhitespace(Spaced(words, gaps)) == words
  {
    hide IsWord, IsGap, SplitWhitespace;
    if words == [] {
      assert gaps[0] == gaps[0] + "";
      SplitGap(gaps[0], "");
      SplitNothing();
    } else {
      var rest := Spaced(words[1..], gaps[1..]);
      SplitGap(gaps[0], words[0] + rest);
      RestSpaced(words[1..], gaps[1..]);
      SplitWord(words[0], rest);
      SplitSpaced(words[1..], gaps[1..]);
    }
  }

  lemma SplitNothing()
    ensures SplitWhitespace("") == []
  {
  }

  lemma RestSpaced(words: seq<string>, gaps: seq<string>)
    requires |gaps| == |words| + 1 && IsGap(gaps[0]) && (words != [] ==> gaps[0] != "")
    ensures var rest := Spaced(words, gaps); rest == "" || IsSpace(rest[0])
  {
    if gaps[0] != "" {
      assert gaps[0][0] in gaps[0];
    }
  }

  lemma {:induction false} SplitGap(gap: string, rest: string)
    requires IsGap(gap)
    ensures SplitWhitespace(gap + rest) == SplitWhitespace(rest)
  {
    if gap == "" {
      assert gap + rest == rest;
    } else {
      assert gap[0] in gap;
      assert (gap + rest)[1..] == gap[1..] + rest;
      SplitGap(gap[1..], rest);
    }
  }

  lemma SplitWord(word: string, rest: string)
    requires IsWord(word) && (rest == "" || IsSpace(rest[0]))
    ensures SplitWhitespace(word + rest) == [word] + SplitWhitespace(rest)
  {
    hide IsSpace;
    var s := word + rest;
    assert s[0] == word[0] && word[0] in word;
    WordEnds(word, rest);
    assert s[..|word|] == word && s[|word|..] == rest;
  }

  lemma {:induction false} WordEnds(word: string, rest: string)
    requires (forall c :: c in word ==> !IsSpace(c)) && (rest == "" || IsSpace(rest[0]))
    ensures WordLength(word + rest) == |word|
  {
    hide IsSpace;
    if word == "" {
      assert word + rest == rest;
    } else {
      assert word[0] in word;
      assert (word + rest)[1..] == word[1..] + rest;
      WordEnds(word[1..], rest);
    }
  }
}
