/** Counting the DNS lookups an SPF record needs. */
module Spf {
  import opened Wrappers
  import opened Text

  const MAX_SPF_INCLUDES := 10
  const MAX_DEPTH := 12
  const SENTINEL := 100

  datatype TxtLookup = Records(records: seq<string>) | Absent | Failed

  /** The resolver is any function, so its answers may refer to each other in circles. */
  type Resolver = string -> TxtLookup

  /** What one mechanism costs: a lookup that is followed, a lookup, or nothing. */
  datatype Mechanism = Follow(domain: string) | Plain | Free

  /** The four passes over leading qualifiers, one after the other. */
  function Unqualified(token: string): string {
    TrimStartChar(TrimStartChar(TrimStartChar(TrimStartChar(token, '+'), '-'), '~'), '?')
  }

  function Classify(token: string): Mechanism {
    var m := Unqualified(token);
    if StartsWith(m, "include:") then Follow(TrimStartString(m, "include:"))
    else if StartsWith(m, "a:") || StartsWith(m, "a/") || m == "a"
            || StartsWith(m, "mx:") || StartsWith(m, "mx/") || m == "mx"
            || StartsWith(m, "ptr") || StartsWith(m, "exists:") then Plain
    else if StartsWith(m, "redirect=") then Follow(TrimStartString(m, "redirect="))
    else Free
  }

  function FirstSpf(records: seq<string>): Option<string> {
    if records == [] then None
    else if StartsWith(records[0], "v=spf1") then Some(records[0])
    else FirstSpf(records[1..])
  }

  /** The record a followed mechanism leads to. */
  function Child(resolver: Resolver, m: Mechanism): Option<string> {
    match m
    case Follow(domain) =>
      (match resolver(domain)
       case Records(records) => FirstSpf(records)
       case Absent => None
       case Failed => None)
    case _ => None
  }

  function Cost(m: Mechanism): nat { if m.Free? then 0 else 1 }

  // ---- The count the code computes ----

  function Count(resolver: Resolver, record: string, depth: nat): nat
    requires depth <= MAX_DEPTH + 1
    decreases MAX_DEPTH + 1 - depth, 1, 0
  {
    if depth > MAX_DEPTH then SENTINEL else CountTokens(resolver, SplitWhitespace(record), depth)
  }

  function CountTokens(resolver: Resolver, tokens: seq<string>, depth: nat): nat
    requires depth <= MAX_DEPTH
    decreases MAX_DEPTH + 1 - depth, 0, |tokens|
  {
    if tokens == [] then 0
    else
      var last := |tokens| - 1;
      var m := Classify(tokens[last]);
      var child := Child(resolver, m);
      CountTokens(resolver, tokens[..last], depth)
      + Cost(m)
      + (if child.Some? then Count(resolver, child.value, depth + 1) else 0)
  }

  method CountSpfLookups(resolver: Resolver, record: string, depth: nat) returns (count: nat)
    requires depth <= MAX_DEPTH + 1
    ensures count == Count(resolver, record, depth)
    decreases MAX_DEPTH + 1 - depth
  {
    if depth > MAX_DEPTH {
      return SENTINEL;
    }
    hide Classify, SplitWhitespace, Child;
    count := 0;
    var tokens := SplitWhitespace(record);
    for i := 0 to |tokens|
      invariant count == CountTokens(resolver, tokens[..i], depth)
    {
      assert tokens[..i + 1][..i] == tokens[..i];
      var m := Classify(tokens[i]);
      count := count + Cost(m);
      var child := Child(resolver, m);
      if child.Some? {
        var nested := CountSpfLookups(resolver, child.value, depth + 1);
        count := count + nested;
      }
    }
    assert tokens[..|tokens|] == tokens;
  }

  predicate ExceedsLimit(resolver: Resolver, record: string) {
    Count(resolver, record, 0) > MAX_SPF_INCLUDES
  }

  // ---- The count without a cutoff ----

  /** The lookups of the record unfolded n levels deep, with no sentinel. */
  function Unfold(resolver: Resolver, record: string, n: nat): nat
    decreases n, 1, 0
  {
    if n == 0 then 0 else UnfoldTokens(resolver, SplitWhitespace(record), n)
  }

  function UnfoldTokens(resolver: Resolver, tokens: seq<string>, n: nat): nat
    requires n > 0
    decreases n, 0, |tokens|
  {
    if tokens == [] then 0
    else
      var last := |tokens| - 1;
      var m := Classify(tokens[last]);
      var child := Child(resolver, m);
      UnfoldTokens(resolver, tokens[..last], n)
      + Cost(m)
      + (if child.Some? then Unfold(resolver, child.value, n - 1) else 0)
  }

  /** Some chain of n includes and redirects leads out of the record. */
  ghost predicate Chain(resolver: Resolver, record: string, n: nat)
    decreases n, 1, 0
  {
    n == 0 || ChainTokens(resolver, SplitWhitespace(record), n)
  }

  ghost predicate ChainTokens(resolver: Resolver, tokens: seq<string>, n: nat)
    requires n > 0
    decreases n, 0, |tokens|
  {
    tokens != [] &&
    var last := |tokens| - 1;
    var child := Child(resolver, Classify(tokens[last]));
    ChainTokens(resolver, tokens[..last], n) || (child.Some? && Chain(resolver, child.value, n - 1))
  }

  lemma FollowCosts(resolver: Resolver, m: Mechanism)
    ensures Child(resolver, m).Some? ==> Cost(m) == 1
  {
  }

  /** A chain as long as the levels left reaches the sentinel, and costs a lookup per level. */
  lemma {:induction false} ChainCosts(resolver: Resolver, record: string, n: nat)
    requires n <= MAX_DEPTH + 1 && Chain(resolver, record, n)
    ensures Count(resolver, record, MAX_DEPTH + 1 - n) >= SENTINEL
    ensures Unfold(resolver, record, n) >= n
    decreases n, 1, 0
  {
    hide Classify, SplitWhitespace, Child, Cost;
    if n > 0 {
      ChainTokensCost(resolver, SplitWhitespace(record), n);
    }
  }

  lemma {:induction false} ChainTokensCost(resolver: Resolver, tokens: seq<string>, n: nat)
    requires 0 < n <= MAX_DEPTH + 1 && ChainTokens(resolver, tokens, n)
    ensures CountTokens(resolver, tokens, MAX_DEPTH + 1 - n) >= SENTINEL
    ensures UnfoldTokens(resolver, tokens, n) >= n
    decreases n, 0, |tokens|
  {
    hide Classify, SplitWhitespace, Child, Cost, Count, Unfold, Chain;
    var last := |tokens| - 1;
    var m := Classify(tokens[last]);
    var child := Child(resolver, m);
    if ChainTokens(resolver, tokens[..last], n) {
      ChainTokensCost(resolver, tokens[..last], n);
    } else {
      FollowCosts(resolver, m);
      ChainCosts(resolver, child.value, n - 1);
    }
  }

  /** Without such a chain the sentinel is never met: the count is the whole unfolding. */
  lemma {:induction false} NoChainExact(resolver: Resolver, record: string, n: nat, levels: nat)
    requires n <= MAX_DEPTH + 1 && n <= levels && !Chain(resolver, record, n)
    ensures Count(resolver, record, MAX_DEPTH + 1 - n) == Unfold(resolver, record, levels)
    decreases n, 1, 0
  {
    hide Classify, SplitWhitespace, Child, Cost;
    NoChainTokensExact(resolver, SplitWhitespace(record), n, levels);
  }

  lemma {:induction false} NoChainTokensExact(resolver: Resolver, tokens: seq<string>, n: nat, levels: nat)
    requires 0 < n <= MAX_DEPTH + 1 && n <= levels && !ChainTokens(resolver, tokens, n)
    ensures CountTokens(resolver, tokens, MAX_DEPTH + 1 - n) == UnfoldTokens(resolver, tokens, levels)
    decreases n, 0, |tokens|
  {
    hide Classify, SplitWhitespace, Child, Cost, Count, Unfold, Chain;
    if tokens != [] {
      var last := |tokens| - 1;
      var child := Child(resolver, Classify(tokens[last]));
      NoChainTokensExact(resolver, tokens[..last], n, levels);
      if child.Some? {
        NoChainExact(resolver, child.value, n - 1, levels - 1);
      }
    }
  }

  lemma {:induction false} UnfoldGrows(resolver: Resolver, record: string, n: nat)
    ensures Unfold(resolver, record, n) <= Unfold(resolver, record, n + 1)
    decreases n, 1, 0
  {
    hide Classify, SplitWhitespace, Child, Cost;
    if n > 0 {
      UnfoldTokensGrow(resolver, SplitWhitespace(record), n);
    }
  }

  lemma {:induction false} UnfoldTokensGrow(resolver: Resolver, tokens: seq<string>, n: nat)
    requires n > 0
    ensures UnfoldTokens(resolver, tokens, n) <= UnfoldTokens(resolver, tokens, n + 1)
    decreases n, 0, |tokens|
  {
    hide Classify, SplitWhitespace, Child, Cost, Unfold;
    if tokens != [] {
      var last := |tokens| - 1;
      var child := Child(resolver, Classify(tokens[last]));
      UnfoldTokensGrow(resolver, tokens[..last], n);
      if child.Some? {
        UnfoldGrows(resolver, child.value, n - 1);
      }
    }
  }

  lemma {:induction false} UnfoldMonotone(resolver: Resolver, record: string, m: nat, n: nat)
    requires m <= n
    ensures Unfold(resolver, record, m) <= Unfold(resolver, record, n)
    decreases n - m
  {
    hide Unfold;
    if m < n {
      UnfoldGrows(resolver, record, m);
      UnfoldMonotone(resolver, record, m + 1, n);
    }
  }

  /** The cutoff never changes the verdict: whatever the resolver, a record is reported as over the
      limit exactly if some finite unfolding of it, counted without the sentinel, is. */
  lemma CutoffSoundAndComplete(resolver: Resolver, record: string)
    ensures ExceedsLimit(resolver, record)
            <==> exists n: nat :: Unfold(resolver, record, n) > MAX_SPF_INCLUDES
  {
    hide Unfold, Count, Chain;
    var all := MAX_DEPTH + 1;
    if Chain(resolver, record, all) {
      ChainCosts(resolver, record, all);
    } else {
      NoChainExact(resolver, record, all, all);
      forall n: nat | Unfold(resolver, record, n) > MAX_SPF_INCLUDES
        ensures ExceedsLimit(resolver, record)
      {
        if n <= all {
          UnfoldMonotone(resolver, record, n, all);
        } else {
          NoChainExact(resolver, record, all, n);
        }
      }
    }
  }

  /** The number reported is the exact total unless a chain of 13 includes or redirects exists. */
  lemma ReportedCountExact(resolver: Resolver, record: string, levels: nat)
    requires levels > MAX_DEPTH && !Chain(resolver, record, MAX_DEPTH + 1)
    ensures Count(resolver, record, 0) == Unfold(resolver, record, levels)
  {
    hide Unfold, Count, Chain;
    NoChainExact(resolver, record, MAX_DEPTH + 1, levels);
  }
}
