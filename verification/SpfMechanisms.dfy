/** What each mechanism of a printed SPF record adds to the count. */
module SpfMechanisms {
  import opened Wrappers
  import opened Text
  import opened Spf

  // ---- Qualifiers ----

  function Rank(c: char): nat {
    if c == '+' then 0 else if c == '-' then 1 else if c == '~' then 2 else if c == '?' then 3 else 4
  }

  /** Qualifiers of the least rank `low` and up, in this order: pluses, minuses, tildes, question marks. */
  predicate Ordered(q: string, low: nat) {
    && (forall i :: 0 <= i < |q| ==> low <= Rank(q[i]) < 4)
    && (forall i, j :: 0 <= i < j < |q| ==> Rank(q[i]) <= Rank(q[j]))
  }

  /** What the four passes take off: nothing else, and qualifiers out of this order not all. */
  predicate Qualifiers(q: string) { Ordered(q, 0) }

  function QualifierOf(rank: nat): char
    requires rank < 4
  {
    "+-~?"[rank]
  }

  /** One pass takes off the qualifiers of its rank. */
  lemma {:induction false} OnePass(q: string, m: string, rank: nat) returns (rest: string)
    requires rank < 4 && Ordered(q, rank) && (m != "" ==> Rank(m[0]) == 4)
    ensures Ordered(rest, rank + 1)
    ensures TrimStartChar(q + m, QualifierOf(rank)) == rest + m
  {
    if q != "" && q[0] == QualifierOf(rank) {
      assert (q + m)[1..] == q[1..] + m;
      rest := OnePass(q[1..], m, rank);
    } else {
      rest := q;
      if q == "" {
        assert q + m == m;
      } else {
        assert Rank(q[0]) > rank;
      }
    }
  }

  lemma FirstRank(q: string, low: nat)
    requires q != "" && Ordered(q, low)
    ensures low < 4
  {
    assert low <= Rank(q[0]);
  }

  lemma NoneLeft(q: string)
    requires Ordered(q, 4)
    ensures q == ""
  {
    if q != "" {
      FirstRank(q, 4);
      assert false;
    }
  }

  lemma QualifiersTakenOff(q: string, m: string)
    requires Qualifiers(q) && (m != "" ==> Rank(m[0]) == 4)
    ensures Unqualified(q + m) == m
  {
    hide TrimStartChar;
    var q1 := OnePass(q, m, 0);
    var q2 := OnePass(q1, m, 1);
    var q3 := OnePass(q2, m, 2);
    var q4 := OnePass(q3, m, 3);
    NoneLeft(q4);
    assert q4 + m == m;
  }

  lemma {:induction false} Peel(s: string, rank: nat) returns (q: string)
    requires rank < 4
    ensures s == q + TrimStartChar(s, QualifierOf(rank))
    ensures forall i :: 0 <= i < |q| ==> Rank(q[i]) == rank
  {
    if s != "" && s[0] == QualifierOf(rank) {
      var rest := Peel(s[1..], rank);
      q := [s[0]] + rest;
      assert s == [s[0]] + s[1..];
    } else {
      q := "";
    }
  }

  /** Every token is what the passes take off and what they leave. */
  lemma TokenSplits(token: string) returns (q: string)
    ensures Qualifiers(q) && token == q + Unqualified(token)
  {
    hide TrimStartChar;
    var s1 := TrimStartChar(token, '+');
    var s2 := TrimStartChar(s1, '-');
    var s3 := TrimStartChar(s2, '~');
    var q0 := Peel(token, 0);
    var q1 := Peel(s1, 1);
    var q2 := Peel(s2, 2);
    var q3 := Peel(s3, 3);
    q := q0 + q1 + q2 + q3;
    assert token == q0 + (q1 + (q2 + (q3 + Unqualified(token))));
  }

  // ---- Mechanisms ----

  /** `a`, `mx`, and what begins like an address, a pointer or an existence test. */
  predicate IsLookup(m: string) {
    || m == "a" || m == "mx"
    || "a:" <= m || "a/" <= m || "mx:" <= m || "mx/" <= m
    || "ptr" <= m || "exists:" <= m
  }

  predicate IsFollow(m: string) { "include:" <= m || "redirect=" <= m }

  /** Some qualifiers and a mechanism that costs a lookup. */
  ghost predicate PrintsLookup(token: string) {
    exists q, m :: Qualifiers(q) && IsLookup(m) && token == q + m
  }

  ghost predicate PrintsFollow(token: string) {
    exists q, m :: Qualifiers(q) && IsFollow(m) && token == q + m
  }

  /** What one token adds at a depth. */
  function Adds(resolver: Resolver, token: string, depth: nat): nat
    requires depth <= MAX_DEPTH
  {
    CountTokens(resolver, [token], depth)
  }

  lemma AddsIs(resolver: Resolver, token: string, depth: nat)
    requires depth <= MAX_DEPTH
    ensures var child := Child(resolver, Classify(token));
            Adds(resolver, token, depth)
            == Cost(Classify(token)) + (if child.Some? then Count(resolver, child.value, depth + 1) else 0)
  {
    hide Classify, Child, Cost, Count;
    assert [token][..0] == [];
    assert CountTokens(resolver, [], depth) == 0;
  }

  lemma LookupStarts(m: string)
    requires IsLookup(m) || IsFollow(m)
    ensures m != "" && Rank(m[0]) == 4
    ensures IsLookup(m) ==> !("include:" <= m) && !("redirect=" <= m)
  {
  }

  /** Any leading qualifiers and then a form of a, mx, ptr or exists: exactly one lookup. */
  lemma LookupAddsOne(resolver: Resolver, q: string, m: string, depth: nat)
    requires Qualifiers(q) && IsLookup(m) && depth <= MAX_DEPTH
    ensures Adds(resolver, q + m, depth) == 1
  {
    hide Unqualified, Adds, Qualifiers, Count, Rank;
    LookupStarts(m);
    QualifiersTakenOff(q, m);
    AddsIs(resolver, q + m, depth);
  }

  /** The i-th of the records is the first to begin as an SPF record does. */
  predicate FirstIs(records: seq<string>, i: nat) {
    && i < |records| && "v=spf1" <= records[i]
    && forall j :: 0 <= j < i ==> !("v=spf1" <= records[j])
  }

  predicate NoneIs(records: seq<string>) { forall j :: 0 <= j < |records| ==> !("v=spf1" <= records[j]) }

  lemma {:induction false} FirstSpfIs(records: seq<string>, i: nat)
    ensures FirstIs(records, i) ==> FirstSpf(records) == Some(records[i])
    ensures NoneIs(records) ==> FirstSpf(records) == None
  {
    if records != [] {
      if i > 0 {
        FirstSpfIs(records[1..], i - 1);
      } else {
        FirstSpfIs(records[1..], 0);
      }
    }
  }

  /** An include or redirect adds one and the count of the first SPF record of its domain, if that has one. */
  lemma FollowAdds(resolver: Resolver, q: string, form: string, domain: string, depth: nat, i: nat)
    requires Qualifiers(q) && (form == "include:" || form == "redirect=") && !(form <= domain) && depth <= MAX_DEPTH
    ensures var adds, found := Adds(resolver, q + (form + domain), depth), resolver(domain);
            && (found.Records? && FirstIs(found.records, i) ==> adds == 1 + Count(resolver, found.records[i], depth + 1))
            && (!found.Records? || NoneIs(found.records) ==> adds == 1)
  {
    hide Unqualified, Adds, Qualifiers, Count, Rank, FirstIs, NoneIs, FirstSpf;
    var m := form + domain;
    FollowStarts(form, domain);
    QualifiersTakenOff(q, m);
    AddsIs(resolver, q + m, depth);
    FollowIs(form, domain, q + m);
    if resolver(domain).Records? {
      FirstSpfIs(resolver(domain).records, i);
      IndexOf(resolver(domain).records, i);
    }
  }

  lemma IndexOf(records: seq<string>, i: nat)
    ensures FirstIs(records, i) ==> i < |records|
  {
  }

  lemma FollowStarts(form: string, domain: string)
    requires form == "include:" || form == "redirect="
    ensures var m := form + domain; IsFollow(m) && m != "" && Rank(m[0]) == 4
  {
  }

  lemma FollowIs(form: string, domain: string, token: string)
    requires (form == "include:" || form == "redirect=") && !(form <= domain) && Unqualified(token) == form + domain
    ensures Classify(token) == Follow(domain)
  {
    var m := form + domain;
    assert form <= m && m[|form|..] == domain;
    assert TrimStartString(domain, form) == domain;
    assert TrimStartString(m, form) == domain;
    assert form == "redirect=" ==> m[0] == 'r';
  }

  /** A form that is repeated counts once: all its copies come off the domain. */
  lemma RepeatedForm(resolver: Resolver, q: string, form: string, rest: string, depth: nat)
    requires Qualifiers(q) && (form == "include:" || form == "redirect=") && form <= rest && depth <= MAX_DEPTH
    ensures Adds(resolver, q + (form + rest), depth) == Adds(resolver, q + rest, depth)
  {
    hide Unqualified, Adds, Qualifiers, Count, Rank, Child;
    FollowStarts(form, rest);
    assert rest == form + rest[|form|..];
    FollowStarts(form, rest[|form|..]);
    QualifiersTakenOff(q, form + rest);
    QualifiersTakenOff(q, rest);
    AddsIs(resolver, q + (form + rest), depth);
    AddsIs(resolver, q + rest, depth);
    assert (form + rest)[|form|..] == rest;
    assert form == "redirect=" ==> rest[0] == 'r' && (form + rest)[0] == 'r';
  }

  /** Every other token adds nothing. */
  lemma OtherAddsNothing(resolver: Resolver, token: string, depth: nat)
    requires !PrintsLookup(token) && !PrintsFollow(token) && depth <= MAX_DEPTH
    ensures Adds(resolver, token, depth) == 0
  {
    hide Unqualified, Adds, Qualifiers, Count;
    var q := TokenSplits(token);
    AddsIs(resolver, token, depth);
  }

  /** How many qualifiers a token begins with. */
  function Leading(s: string): nat { if s == "" || Rank(s[0]) == 4 then 0 else 1 + Leading(s[1..]) }

  lemma {:induction false} LeadingIs(q: string, m: string)
    requires (forall i :: 0 <= i < |q| ==> Rank(q[i]) < 4) && m != "" && Rank(m[0]) == 4
    ensures Leading(q + m) == |q|
  {
    if q == "" {
      assert q + m == m;
    } else {
      assert (q + m)[1..] == q[1..] + m;
      LeadingIs(q[1..], m);
    }
  }

  lemma SameSplit(q: string, m: string, q': string, m': string)
    requires forall i :: 0 <= i < |q| ==> Rank(q[i]) < 4
    requires forall i :: 0 <= i < |q'| ==> Rank(q'[i]) < 4
    requires m != "" && m' != "" && Rank(m[0]) == 4 && Rank(m'[0]) == 4
    requires q + m == q' + m'
    ensures q == q'
  {
    LeadingIs(q, m);
    LeadingIs(q', m');
    assert (q + m)[..|q|] == q && (q' + m')[..|q'|] == q';
  }

  /** Of several qualifiers in front of a lookup, the passes take off all, so that it counts, exactly if they stand
      in the order of the passes; else it counts nothing. */
  lemma QualifiedAddsOneIff(resolver: Resolver, q: string, m: string, depth: nat)
    requires (forall i :: 0 <= i < |q| ==> Rank(q[i]) < 4) && IsLookup(m) && depth <= MAX_DEPTH
    ensures Adds(resolver, q + m, depth) == if Qualifiers(q) then 1 else 0
  {
    hide Adds, Rank, IsLookup, IsFollow;
    if Qualifiers(q) {
      LookupAddsOne(resolver, q, m, depth);
    } else {
      LookupStarts(m);
      forall q', m' | Qualifiers(q') && (IsLookup(m') || IsFollow(m')) && q + m == q' + m'
        ensures q == q'
      {
        LookupStarts(m');
        SameSplit(q, m, q', m');
      }
      OtherAddsNothing(resolver, q + m, depth);
    }
  }

  /** "-+a" counts nothing. */
  lemma SwappedQualifiersCountNothing(resolver: Resolver)
    ensures Adds(resolver, "-+a", 0) == 0
  {
    hide Adds;
    var q := "-+";
    assert q + "a" == "-+a";
    assert Rank(q[0]) > Rank(q[1]);
    QualifiedAddsOneIff(resolver, q, "a", 0);
  }

  // ---- Records ----

  /** The count of a list of tokens is the sum of what they add. */
  lemma {:induction false} TokensAddUp(resolver: Resolver, a: seq<string>, b: seq<string>, depth: nat)
    requires depth <= MAX_DEPTH
    ensures CountTokens(resolver, a + b, depth) == CountTokens(resolver, a, depth) + CountTokens(resolver, b, depth)
  {
    hide Classify, Child, Cost, Count;
    if b == [] {
      assert a + b == a;
    } else {
      TokensAddUp(resolver, a, b[..|b| - 1], depth);
      assert (a + b)[..|a + b| - 1] == a + b[..|b| - 1];
    }
  }

  ghost function NumLookups(tokens: seq<string>): nat {
    if tokens == [] then 0
    else NumLookups(tokens[..|tokens| - 1]) + (if PrintsLookup(tokens[|tokens| - 1]) then 1 else 0)
  }

  lemma {:induction false} FlatTokens(resolver: Resolver, tokens: seq<string>, depth: nat)
    requires depth <= MAX_DEPTH && forall t :: t in tokens ==> !PrintsFollow(t)
    ensures CountTokens(resolver, tokens, depth) == NumLookups(tokens)
  {
    hide PrintsLookup, PrintsFollow;
    if tokens != [] {
      var init, t := tokens[..|tokens| - 1], tokens[|tokens| - 1];
      FlatTokens(resolver, init, depth);
      assert tokens == init + [t];
      TokensAddUp(resolver, init, [t], depth);
      assert t in tokens;
      FlatToken(resolver, t, depth);
    }
  }

  lemma FlatToken(resolver: Resolver, token: string, depth: nat)
    requires depth <= MAX_DEPTH && !PrintsFollow(token)
    ensures CountTokens(resolver, [token], depth) == if PrintsLookup(token) then 1 else 0
  {
    hide CountTokens, Qualifiers, IsLookup;
    if PrintsLookup(token) {
      var q, m :| Qualifiers(q) && IsLookup(m) && token == q + m;
      LookupAddsOne(resolver, q, m, depth);
    } else {
      OtherAddsNothing(resolver, token, depth);
    }
  }

  /** A record without includes and redirects, however it is spaced, counts its lookups, and is over the limit
      exactly when there are more than ten. */
  lemma FlatRecord(resolver: Resolver, words: seq<string>, gaps: seq<string>)
    requires |gaps| == |words| + 1
    requires forall w :: w in words ==> IsWord(w) && !PrintsFollow(w)
    requires forall i :: 0 <= i < |gaps| ==> IsGap(gaps[i])
    requires forall i :: 0 < i < |words| ==> gaps[i] != ""
    ensures Count(resolver, Spaced(words, gaps), 0) == NumLookups(words)
    ensures ExceedsLimit(resolver, Spaced(words, gaps)) <==> NumLookups(words) > 10
  {
    hide PrintsFollow, IsWord, IsGap, Spaced, NumLookups;
    SplitSpaced(words, gaps);
    FlatTokens(resolver, words, 0);
  }
}
