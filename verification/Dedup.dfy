/** Deduplication of findings by normalised target, wildcards absorbing the hosts they cover. */
module Dedup {
  import opened Wrappers
  import opened Text
  import opened Hosts

  const WILDCARD_ORIGIN := "wildcard-origin"

  /** `extra` stands for everything a rebuilt finding loses. */
  datatype Finding = Finding(target: string, tags: seq<string>, content: string, extra: string)

  /** Whether the builder accepts the rebuilt finding. */
  type Builder = Finding -> bool

  predicate IsWild(norm: string) { StartsWith(norm, "*.") }

  function Norm(f: Finding): string { NormalizeHost(f.target) }

  /** Whether a host key ends below the parent of a wildcard key. */
  predicate Below(wildcard: string, host: string) {
    IsWild(wildcard) && EndsWith(host, "." + wildcard[2..])
  }

  predicate IsWildcardCovered(wildcard: string, host: string) {
    Below(NormalizeHost(wildcard), NormalizeHost(host))
  }

  function Wildcards(findings: seq<Finding>): seq<string> {
    if findings == [] then []
    else
      var last := |findings| - 1;
      Wildcards(findings[..last]) + (if IsWild(Norm(findings[last])) then [Norm(findings[last])] else [])
  }

  /** The findings whose target is, or is not, a wildcard, in order. */
  function Select(findings: seq<Finding>, wild: bool): seq<Finding> {
    if findings == [] then []
    else
      var last := |findings| - 1;
      Select(findings[..last], wild) + (if IsWild(Norm(findings[last])) == wild then [findings[last]] else [])
  }

  predicate Covered(wildcards: seq<string>, target: string) {
    exists i :: 0 <= i < |wildcards| && IsWildcardCovered(wildcards[i], target)
  }

  /** The first wildcard that covers the target. */
  function Cover(wildcards: seq<string>, target: string): (w: string)
    requires Covered(wildcards, target)
    ensures w in wildcards && IsWildcardCovered(w, target)
  {
    if IsWildcardCovered(wildcards[0], target) then wildcards[0]
    else
      assert Covered(wildcards[1..], target) by {
        var i :| 0 <= i < |wildcards| && IsWildcardCovered(wildcards[i], target);
        assert wildcards[1..][i - 1] == wildcards[i];
      }
      Cover(wildcards[1..], target)
  }

  function Key(wildcards: seq<string>, f: Finding): string {
    if IsWild(Norm(f)) then Norm(f)
    else if Covered(wildcards, f.target) then Cover(wildcards, f.target)
    else Norm(f)
  }

  predicate NeedsTag(wildcards: seq<string>, f: Finding) {
    Covered(wildcards, f.target) && WILDCARD_ORIGIN !in f.tags
  }

  /** The finding as it is put out: rebuilt with the tag if it needs it and the builder accepts. */
  function Tagged(wildcards: seq<string>, builds: Builder, f: Finding): Finding {
    var rebuilt := f.(tags := f.tags + [WILDCARD_ORIGIN], extra := "");
    if NeedsTag(wildcards, f) && builds(rebuilt) then rebuilt else f
  }

  datatype Pass = Pass(seen: set<string>, out: seq<Finding>)

  /** The loop over the first findings of the ordered list. */
  function Run(wildcards: seq<string>, builds: Builder, ordered: seq<Finding>): Pass {
    if ordered == [] then Pass({}, [])
    else
      var last := |ordered| - 1;
      Step(wildcards, builds, Run(wildcards, builds, ordered[..last]), ordered[last])
  }

  function Step(wildcards: seq<string>, builds: Builder, before: Pass, f: Finding): Pass {
    var key := Key(wildcards, f);
    if key in before.seen then before
    else Pass(before.seen + {key}, before.out + [Tagged(wildcards, builds, f)])
  }

  function Dedup(builds: Builder, findings: seq<Finding>): seq<Finding> {
    Run(Wildcards(findings), builds, Select(findings, true) + Select(findings, false)).out
  }

  method DedupFindings(builds: Builder, findings: seq<Finding>) returns (out: seq<Finding>)
    ensures out == Dedup(builds, findings)
  {
    hide Key, NormalizeHost, NeedsTag, Covered, IsWild;
    var wildcards, wild, concrete := [], [], [];
    for i := 0 to |findings|
      invariant wildcards == Wildcards(findings[..i])
      invariant wild == Select(findings[..i], true) && concrete == Select(findings[..i], false)
    {
      assert findings[..i + 1][..i] == findings[..i];
      var norm := Normalize(findings[i].target);
      assert norm == Norm(findings[i]);
      if IsWild(norm) {
        wildcards := wildcards + [norm];
        wild := wild + [findings[i]];
      } else {
        concrete := concrete + [findings[i]];
      }
    }
    assert findings[..|findings|] == findings;
    var ordered := wild + concrete;
    var seen: set<string> := {};
    out := [];
    for i := 0 to |ordered|
      invariant Pass(seen, out) == Run(wildcards, builds, ordered[..i])
    {
      assert ordered[..i + 1][..i] == ordered[..i];
      var f := ordered[i];
      var key := Key(wildcards, f);
      if key !in seen {
        seen := seen + {key};
        var rebuilt := f.(tags := f.tags + [WILDCARD_ORIGIN], extra := "");
        if NeedsTag(wildcards, f) && builds(rebuilt) {
          out := out + [rebuilt];
        } else {
          out := out + [f];
        }
      }
    }
    assert ordered[..|ordered|] == ordered;
  }

  // ---- Who survives ----

  ghost function Norms(findings: seq<Finding>): set<string> {
    set f | f in findings :: Norm(f)
  }

  ghost predicate DistinctNorms(findings: seq<Finding>) {
    forall i, j :: 0 <= i < j < |findings| ==> Norm(findings[i]) != Norm(findings[j])
  }

  /** What a wildcard finding covers: its key is normalised a second time. */
  predicate Covers(w: Finding, f: Finding) {
    IsWild(Norm(w)) && Below(NormalizeHost(Norm(w)), Norm(f))
  }

  /** Wildcards survive, and so does every host that no wildcard of the input covers. */
  ghost predicate Kept(findings: seq<Finding>, f: Finding) {
    IsWild(Norm(f)) || forall w :: w in findings ==> !Covers(w, f)
  }

  ghost function KeptNorms(findings: seq<Finding>): set<string> {
    set f | f in findings && Kept(findings, f) :: Norm(f)
  }

  lemma {:induction false} WildcardsMembers(findings: seq<Finding>)
    ensures forall w :: w in Wildcards(findings) <==> exists f :: f in findings && IsWild(Norm(f)) && Norm(f) == w
  {
    hide Norm, IsWild;
    if findings != [] {
      var last := |findings| - 1;
      WildcardsMembers(findings[..last]);
      assert findings == findings[..last] + [findings[last]];
    }
  }

  lemma {:induction false} SelectMembers(findings: seq<Finding>, wild: bool)
    ensures forall f :: f in Select(findings, wild) <==> f in findings && IsWild(Norm(f)) == wild
  {
    hide Norm, IsWild;
    if findings != [] {
      var last := |findings| - 1;
      SelectMembers(findings[..last], wild);
      assert findings == findings[..last] + [findings[last]];
    }
  }

  /** The collected wildcards cover what the wildcard findings cover. */
  lemma CoveredIff(findings: seq<Finding>, f: Finding)
    ensures Covered(Wildcards(findings), f.target) <==> exists w :: w in findings && Covers(w, f)
  {
    hide Below, IsWild, NormalizeHost;
    var wildcards := Wildcards(findings);
    WildcardsMembers(findings);
    if Covered(wildcards, f.target) {
      var i :| 0 <= i < |wildcards| && IsWildcardCovered(wildcards[i], f.target);
      assert wildcards[i] in wildcards;
    }
    if exists w :: w in findings && Covers(w, f) {
      var w :| w in findings && Covers(w, f);
      assert Norm(w) in wildcards;
      var i :| 0 <= i < |wildcards| && wildcards[i] == Norm(w);
      assert IsWildcardCovered(wildcards[i], f.target);
    }
  }

  /** The first finding with a given normalised target. */
  function First(findings: seq<Finding>, norm: string): Option<Finding> {
    if findings == [] then None
    else
      var last := |findings| - 1;
      var before := First(findings[..last], norm);
      if before.Some? then before
      else if Norm(findings[last]) == norm then Some(findings[last])
      else None
  }

  lemma {:induction false} FirstFound(findings: seq<Finding>, norm: string)
    ensures First(findings, norm).Some? ==> First(findings, norm).value in findings && Norm(First(findings, norm).value) == norm
    ensures First(findings, norm).None? ==> norm !in Norms(findings)
  {
    hide Norm;
    if findings != [] {
      var last := |findings| - 1;
      FirstFound(findings[..last], norm);
      assert findings == findings[..last] + [findings[last]];
    }
  }

  predicate Counts(wildcards: seq<string>, f: Finding) {
    IsWild(Norm(f)) || !Covered(wildcards, f.target)
  }

  /** What the loop has done after some findings: one survivor, the first, for each normalised target
      that counts, and the wildcards in front. */
  ghost predicate Done(wildcards: seq<string>, builds: Builder, prefix: seq<Finding>, pass: Pass) {
    && pass.seen == Norms(pass.out)
    && DistinctNorms(pass.out)
    && (forall n :: n in pass.seen <==> exists f :: f in prefix && Counts(wildcards, f) && Norm(f) == n)
    && (forall k :: 0 <= k < |pass.out| ==> SurvivorOf(wildcards, builds, prefix, pass.out[k]))
    && Partitioned(pass.out)
  }

  ghost predicate SurvivorOf(wildcards: seq<string>, builds: Builder, prefix: seq<Finding>, f: Finding) {
    exists g :: First(prefix, Norm(f)) == Some(g) && Counts(wildcards, g) && f == Tagged(wildcards, builds, g)
  }

  ghost predicate Partitioned(findings: seq<Finding>) {
    forall i, j :: 0 <= i < j < |findings| && IsWild(Norm(findings[j])) ==> IsWild(Norm(findings[i]))
  }

  lemma NormsAppend(findings: seq<Finding>, f: Finding)
    ensures Norms(findings + [f]) == Norms(findings) + {Norm(f)}
  {
    hide Norm;
    var all := findings + [f];
    assert all[|findings|] == f;
    forall n
      ensures n in Norms(all) <==> n in Norms(findings) + {Norm(f)}
    {
      if n in Norms(findings) {
        var g :| g in findings && Norm(g) == n;
        assert g in all;
      }
      if n in Norms(all) {
        var g :| g in all && Norm(g) == n;
        assert g in findings || g == f;
      }
    }
  }

  lemma SurvivorStays(wildcards: seq<string>, builds: Builder, prefix: seq<Finding>, f: Finding, out: Finding)
    requires SurvivorOf(wildcards, builds, prefix, out)
    ensures SurvivorOf(wildcards, builds, prefix + [f], out)
  {
    hide Norm, Counts, Tagged;
    assert (prefix + [f])[..|prefix|] == prefix;
  }

  lemma NewSurvivor(wildcards: seq<string>, builds: Builder, prefix: seq<Finding>, f: Finding)
    requires Counts(wildcards, f) && Norm(f) !in Norms(prefix)
    ensures SurvivorOf(wildcards, builds, prefix + [f], Tagged(wildcards, builds, f))
  {
    hide Counts;
    assert (prefix + [f])[..|prefix|] == prefix;
    FirstFound(prefix, Norm(f));
    assert First(prefix + [f], Norm(f)) == Some(f);
  }

  lemma CountsByNorm(wildcards: seq<string>, f: Finding, g: Finding)
    requires Norm(f) == Norm(g)
    ensures Counts(wildcards, f) == Counts(wildcards, g)
  {
    hide NormalizeHost, Below, IsWild;
    forall i | 0 <= i < |wildcards|
      ensures IsWildcardCovered(wildcards[i], f.target) == IsWildcardCovered(wildcards[i], g.target)
    {
    }
  }

  lemma TaggedNorm(wildcards: seq<string>, builds: Builder, f: Finding)
    ensures Norm(Tagged(wildcards, builds, f)) == Norm(f)
  {
    hide NormalizeHost, NeedsTag;
  }

  lemma KeyOfCounting(wildcards: seq<string>, f: Finding)
    ensures Counts(wildcards, f) ==> Key(wildcards, f) == Norm(f)
    ensures !Counts(wildcards, f) ==> Key(wildcards, f) in wildcards
  {
    hide Norm, IsWild, IsWildcardCovered;
  }

  lemma SeenStep(wildcards: seq<string>, builds: Builder, prefix: seq<Finding>, pass: Pass, f: Finding)
    requires Done(wildcards, builds, prefix, pass)
    requires Counts(wildcards, f) || (forall w :: w in wildcards ==> w in pass.seen)
    ensures var after := Step(wildcards, builds, pass, f);
            && (forall n :: n in after.seen <==> exists g :: g in prefix + [f] && Counts(wildcards, g) && Norm(g) == n)
            && (after == pass || (Counts(wildcards, f) && Norm(f) !in pass.seen && after.seen == pass.seen + {Norm(f)}))
  {
    hide Norm, Counts, Key, Tagged, DistinctNorms, Partitioned, SurvivorOf, Norms;
    KeyOfCounting(wildcards, f);
    var after := Step(wildcards, builds, pass, f);
    assert (prefix + [f])[|prefix|] == f;
    forall n
      ensures n in after.seen <==> exists g :: g in prefix + [f] && Counts(wildcards, g) && Norm(g) == n
    {
      if n in pass.seen {
        var g :| g in prefix && Counts(wildcards, g) && Norm(g) == n;
        assert g in prefix + [f];
      }
      if exists g :: g in prefix + [f] && Counts(wildcards, g) && Norm(g) == n {
        var g :| g in prefix + [f] && Counts(wildcards, g) && Norm(g) == n;
        assert g in prefix || g == f;
      }
    }
  }

  lemma DoneStep(wildcards: seq<string>, builds: Builder, prefix: seq<Finding>, pass: Pass, f: Finding)
    requires Done(wildcards, builds, prefix, pass)
    requires Counts(wildcards, f) || (forall w :: w in wildcards ==> w in pass.seen)
    requires IsWild(Norm(f)) ==> Partitioned(pass.out + [f])
    ensures Done(wildcards, builds, prefix + [f], Step(wildcards, builds, pass, f))
  {
    hide Norm, Counts, Key, Tagged, First, IsWild;
    SeenStep(wildcards, builds, prefix, pass, f);
    var after := Step(wildcards, builds, pass, f);
    forall k | 0 <= k < |pass.out|
      ensures SurvivorOf(wildcards, builds, prefix + [f], pass.out[k])
    {
      SurvivorStays(wildcards, builds, prefix, f, pass.out[k]);
    }
    if after != pass {
      var out := Tagged(wildcards, builds, f);
      KeyOfCounting(wildcards, f);
      TaggedNorm(wildcards, builds, f);
      NotSeenNotBefore(wildcards, builds, prefix, pass, f);
      NewSurvivor(wildcards, builds, prefix, f);
      NormsAppend(pass.out, out);
      DistinctAppend(pass.out, out);
      PartitionedAppend(pass.out, f, out);
    }
  }

  lemma NotSeenNotBefore(wildcards: seq<string>, builds: Builder, prefix: seq<Finding>, pass: Pass, f: Finding)
    requires Done(wildcards, builds, prefix, pass) && Counts(wildcards, f) && Norm(f) !in pass.seen
    ensures Norm(f) !in Norms(prefix)
  {
    hide Norm, Counts;
    forall g | g in prefix
      ensures Norm(g) != Norm(f)
    {
      if Norm(g) == Norm(f) {
        CountsByNorm(wildcards, f, g);
      }
    }
  }

  lemma DistinctAppend(findings: seq<Finding>, f: Finding)
    requires DistinctNorms(findings) && Norm(f) !in Norms(findings)
    ensures DistinctNorms(findings + [f])
  {
    hide Norm;
    forall i | 0 <= i < |findings|
      ensures Norm(findings[i]) != Norm(f)
    {
      assert findings[i] in findings;
    }
  }

  lemma PartitionedAppend(findings: seq<Finding>, f: Finding, out: Finding)
    requires Partitioned(findings) && (IsWild(Norm(f)) ==> Partitioned(findings + [f])) && Norm(out) == Norm(f)
    ensures Partitioned(findings + [out])
  {
    hide Norm, IsWild;
    forall i | 0 <= i < |findings| && IsWild(Norm(out))
      ensures IsWild(Norm(findings[i]))
    {
      assert (findings + [f])[i] == findings[i] && (findings + [f])[|findings|] == f;
    }
  }

  lemma {:induction false} RunWild(wildcards: seq<string>, builds: Builder, wild: seq<Finding>)
    requires forall f :: f in wild ==> IsWild(Norm(f))
    ensures Done(wildcards, builds, wild, Run(wildcards, builds, wild))
    ensures forall f :: f in Run(wildcards, builds, wild).out ==> IsWild(Norm(f))
  {
    hide Norm, IsWild, Key, Tagged;
    if wild != [] {
      var init, f := wild[..|wild| - 1], wild[|wild| - 1];
      RunWild(wildcards, builds, init);
      DoneStep(wildcards, builds, init, Run(wildcards, builds, init), f);
      TaggedNorm(wildcards, builds, f);
      assert wild == init + [f];
    }
  }

  lemma {:induction false} RunAll(wildcards: seq<string>, builds: Builder, wild: seq<Finding>, concrete: seq<Finding>)
    requires forall f :: f in wild ==> IsWild(Norm(f))
    requires forall f :: f in concrete ==> !IsWild(Norm(f))
    requires forall w :: w in wildcards ==> w in Norms(wild)
    ensures Done(wildcards, builds, wild + concrete, Run(wildcards, builds, wild + concrete))
  {
    hide Norm, IsWild, Key, Tagged, First, Step;
    if concrete == [] {
      assert wild + concrete == wild;
      RunWild(wildcards, builds, wild);
    } else {
      var init, f := concrete[..|concrete| - 1], concrete[|concrete| - 1];
      RunAll(wildcards, builds, wild, init);
      var pass := Run(wildcards, builds, wild + init);
      forall w | w in wildcards
        ensures w in pass.seen
      {
        var g :| g in wild && Norm(g) == w;
        assert g in wild + init && Counts(wildcards, g);
      }
      DoneStep(wildcards, builds, wild + init, pass, f);
      assert wild + concrete == (wild + init) + [f];
      assert (wild + concrete)[..|wild + concrete| - 1] == wild + init;
    }
  }

  lemma FirstAppend(findings: seq<Finding>, f: Finding, norm: string)
    ensures First(findings + [f], norm)
            == if First(findings, norm).Some? then First(findings, norm) else if Norm(f) == norm then Some(f) else None
  {
    hide Norm;
    assert (findings + [f])[..|findings|] == findings;
  }

  lemma SelectAppend(findings: seq<Finding>, f: Finding, wild: bool)
    ensures Select(findings + [f], wild)
            == if IsWild(Norm(f)) == wild then Select(findings, wild) + [f] else Select(findings, wild)
  {
    hide Norm, IsWild;
    assert (findings + [f])[..|findings|] == findings;
  }

  lemma NothingSelected(wild: bool, norm: string)
    ensures First(Select([], wild), norm) == None == First([], norm)
  {
  }

  lemma {:induction false} FirstSelected(findings: seq<Finding>, wild: bool, norm: string)
    ensures First(Select(findings, wild), norm) == if IsWild(norm) == wild then First(findings, norm) else None
  {
    hide Norm, IsWild, First, Select;
    if findings == [] {
      NothingSelected(wild, norm);
    } else {
      var init, f := findings[..|findings| - 1], findings[|findings| - 1];
      assert findings == init + [f];
      FirstSelected(init, wild, norm);
      FirstAppend(init, f, norm);
      SelectAppend(init, f, wild);
      FirstAppend(Select(init, wild), f, norm);
    }
  }

  lemma {:induction false} FirstJoined(a: seq<Finding>, b: seq<Finding>, norm: string)
    ensures First(a + b, norm) == if First(a, norm).Some? then First(a, norm) else First(b, norm)
  {
    hide Norm;
    if b == [] {
      assert a + b == a;
    } else {
      FirstJoined(a, b[..|b| - 1], norm);
      assert (a + b)[..|a + b| - 1] == a + b[..|b| - 1];
    }
  }

  lemma FirstOrdered(findings: seq<Finding>, norm: string)
    ensures First(Select(findings, true) + Select(findings, false), norm) == First(findings, norm)
  {
    hide IsWild, Norm, First, Select;
    FirstJoined(Select(findings, true), Select(findings, false), norm);
    FirstSelected(findings, true, norm);
    FirstSelected(findings, false, norm);
  }

  lemma DedupDone(builds: Builder, findings: seq<Finding>) returns (pass: Pass)
    ensures Dedup(builds, findings) == pass.out
    ensures Done(Wildcards(findings), builds, Select(findings, true) + Select(findings, false), pass)
  {
    hide IsWild, Norm, Run, Select, Done;
    var wild, concrete := Select(findings, true), Select(findings, false);
    SelectMembers(findings, true);
    SelectMembers(findings, false);
    WildcardsMembers(findings);
    forall w | w in Wildcards(findings)
      ensures w in Norms(wild)
    {
      var f :| f in findings && IsWild(Norm(f)) && Norm(f) == w;
      assert f in wild;
    }
    RunAll(Wildcards(findings), builds, wild, concrete);
    pass := Run(Wildcards(findings), builds, wild + concrete);
  }

  lemma KeptIffCounts(findings: seq<Finding>, f: Finding)
    ensures Kept(findings, f) <==> Counts(Wildcards(findings), f)
  {
    hide IsWild, Norm, Covers, Wildcards, Covered;
    CoveredIff(findings, f);
  }

  /** The survivors: one for each normalised target among the wildcards and the hosts that none of
      them covers, and no other; each is the first finding of its target, tagged if it is covered. */
  lemma SurvivorsExact(builds: Builder, findings: seq<Finding>)
    ensures var out := Dedup(builds, findings);
            && DistinctNorms(out)
            && Norms(out) == KeptNorms(findings)
            && (forall k :: 0 <= k < |out| ==> FirstTagged(builds, findings, out[k]))
  {
    hide IsWild, Norm, Wildcards, Select, Kept, Counts, Tagged, First, Dedup;
    var wildcards, ordered := Wildcards(findings), Select(findings, true) + Select(findings, false);
    var pass := DedupDone(builds, findings);
    SelectMembers(findings, true);
    SelectMembers(findings, false);
    forall n
      ensures n in pass.seen <==> n in KeptNorms(findings)
    {
      if n in pass.seen {
        var f :| f in ordered && Counts(wildcards, f) && Norm(f) == n;
        KeptIffCounts(findings, f);
        assert f in findings;
      }
      if n in KeptNorms(findings) {
        var f :| f in findings && Kept(findings, f) && Norm(f) == n;
        KeptIffCounts(findings, f);
        assert f in ordered;
      }
    }
    forall k | 0 <= k < |pass.out|
      ensures FirstTagged(builds, findings, pass.out[k])
    {
      assert SurvivorOf(wildcards, builds, ordered, pass.out[k]);
      FirstOrdered(findings, Norm(pass.out[k]));
    }
  }

  ghost predicate FirstTagged(builds: Builder, findings: seq<Finding>, f: Finding) {
    exists g :: First(findings, Norm(f)) == Some(g) && f == Tagged(Wildcards(findings), builds, g)
  }

  /** What a survivor carries: it is the first finding of its key, unchanged unless some wildcard of the input covers it
      and it lacks the tag; then, if the rebuilt finding is accepted, it has the tag at the end and nothing else of
      what it had is changed but what rebuilding loses. */
  lemma SurvivorCarries(builds: Builder, findings: seq<Finding>, k: nat)
    requires k < |Dedup(builds, findings)|
    ensures var f := Dedup(builds, findings)[k];
            exists g :: First(findings, Norm(f)) == Some(g) &&
              var rebuilt := Finding(g.target, g.tags + ["wildcard-origin"], g.content, "");
              var tags := (exists w :: w in findings && Covers(w, g)) && "wildcard-origin" !in g.tags && builds(rebuilt);
              f == if tags then rebuilt else g
  {
    hide Norm, Dedup, Covered, Wildcards, First, Covers;
    SurvivorsExact(builds, findings);
    var f := Dedup(builds, findings)[k];
    assert FirstTagged(builds, findings, f);
    var g :| First(findings, Norm(f)) == Some(g) && f == Tagged(Wildcards(findings), builds, g);
    CoveredIff(findings, g);
  }

  /** Reordering the findings does not change which targets survive. */
  lemma OrderIndependent(builds: Builder, a: seq<Finding>, b: seq<Finding>)
    requires multiset(a) == multiset(b)
    ensures Norms(Dedup(builds, a)) == Norms(Dedup(builds, b))
  {
    hide IsWild, Norm, Dedup;
    forall f
      ensures f in a <==> f in b
    {
      assert f in a <==> f in multiset(a);
    }
    SurvivorsExact(builds, a);
    SurvivorsExact(builds, b);
  }

  // ---- A second pass changes nothing ----

  lemma {:induction false} PartitionedSelect(findings: seq<Finding>)
    requires Partitioned(findings)
    ensures Select(findings, true) + Select(findings, false) == findings
    ensures findings != [] && IsWild(Norm(findings[|findings| - 1])) ==> Select(findings, false) == []
  {
    hide IsWild, Norm;
    if findings != [] {
      var init, f := findings[..|findings| - 1], findings[|findings| - 1];
      PartitionedSelect(init);
      if IsWild(Norm(f)) && init != [] {
        assert findings[|init| - 1] == init[|init| - 1];
      }
    }
  }

  lemma {:induction false} RunFixed(wildcards: seq<string>, builds: Builder, findings: seq<Finding>)
    requires DistinctNorms(findings)
    requires forall f :: f in findings ==> Counts(wildcards, f) && Tagged(wildcards, builds, f) == f
    ensures Run(wildcards, builds, findings) == Pass(Norms(findings), findings)
  {
    hide IsWild, Norm, Counts, Tagged, Key;
    if findings != [] {
      var init, f := findings[..|findings| - 1], findings[|findings| - 1];
      RunFixed(wildcards, builds, init);
      KeyOfCounting(wildcards, f);
      assert findings == init + [f];
      NormsAppend(init, f);
      forall g | g in init
        ensures Norm(g) != Norm(f)
      {
        var i :| 0 <= i < |init| && init[i] == g;
        assert findings[i] == g && findings[|init|] == f;
      }
    }
  }

  /** Fewer wildcards cover fewer targets, so a survivor passes through unchanged. */
  lemma SurvivorFixed(wildcards: seq<string>, fewer: seq<string>, builds: Builder, g: Finding)
    requires Counts(wildcards, g)
    requires forall w :: w in fewer ==> w in wildcards
    ensures var f := Tagged(wildcards, builds, g);
            Counts(fewer, f) && Tagged(fewer, builds, f) == f
  {
    hide Norm, IsWild, IsWildcardCovered;
    var f := Tagged(wildcards, builds, g);
    TaggedNorm(wildcards, builds, g);
    assert f.target == g.target;
    if Covered(fewer, f.target) {
      var i :| 0 <= i < |fewer| && IsWildcardCovered(fewer[i], f.target);
      assert fewer[i] in wildcards;
      var j :| 0 <= j < |wildcards| && wildcards[j] == fewer[i];
      assert IsWildcardCovered(wildcards[j], g.target);
    }
    if f != g {
      assert f.tags[|g.tags|] == WILDCARD_ORIGIN;
    }
  }

  /** The survivors' wildcards are among the input's. */
  lemma FewerWildcards(builds: Builder, findings: seq<Finding>)
    ensures forall w :: w in Wildcards(Dedup(builds, findings)) ==> w in Wildcards(findings)
  {
    hide Norm, IsWild, Dedup, Wildcards;
    var out := Dedup(builds, findings);
    SurvivorsExact(builds, findings);
    WildcardsMembers(out);
    WildcardsMembers(findings);
    forall w | w in Wildcards(out)
      ensures w in Wildcards(findings)
    {
      var f :| f in out && IsWild(Norm(f)) && Norm(f) == w;
      assert w in Norms(out);
      var g :| g in findings && Kept(findings, g) && Norm(g) == w;
      assert IsWild(Norm(g));
    }
  }

  /** Deduplicating the survivors gives exactly the survivors. */
  lemma DedupIdempotent(builds: Builder, findings: seq<Finding>)
    ensures Dedup(builds, Dedup(builds, findings)) == Dedup(builds, findings)
  {
    hide Norm, IsWild, Counts, Tagged, First, Wildcards, Select, Run;
    var pass := DedupDone(builds, findings);
    var out, wildcards := pass.out, Wildcards(findings);
    var ordered := Select(findings, true) + Select(findings, false);
    FewerWildcards(builds, findings);
    forall f | f in out
      ensures Counts(Wildcards(out), f) && Tagged(Wildcards(out), builds, f) == f
    {
      var k :| 0 <= k < |out| && out[k] == f;
      assert SurvivorOf(wildcards, builds, ordered, out[k]);
      var g :| First(ordered, Norm(f)) == Some(g) && Counts(wildcards, g) && f == Tagged(wildcards, builds, g);
      SurvivorFixed(wildcards, Wildcards(out), builds, g);
    }
    PartitionedSelect(out);
    RunFixed(Wildcards(out), builds, out);
  }

  // ---- Coverage ----

  lemma EndsWithIff(s: string, suffix: string)
    ensures EndsWith(s, suffix) <==> exists p :: s == p + suffix
  {
    if EndsWith(s, suffix) {
      assert s == s[..|s| - |suffix|] + suffix;
    }
    if exists p :: s == p + suffix {
      var p :| s == p + suffix;
      assert s[|p|..] == suffix;
    }
  }

  /** A wildcard covers exactly the names that extend its parent by a dot and something in front
      (section 4.2 of RFC 4592), so never the parent itself, and always itself. */
  lemma CoverageExact(wildcard: string, host: string)
    requires IsWild(wildcard)
    ensures Below(wildcard, host) <==> exists p :: host == p + ("." + wildcard[2..])
    ensures !Below(wildcard, wildcard[2..]) && Below(wildcard, wildcard)
  {
    hide EndsWith;
    var suffix := "." + wildcard[2..];
    EndsWithIff(host, suffix);
    EndsWithIff(wildcard, suffix);
    EndsWithIff(wildcard[2..], suffix);
    assert wildcard == "*" + suffix;
    forall p
      ensures wildcard[2..] != p + suffix
    {
      assert |p + suffix| > |wildcard[2..]|;
    }
  }

  /** A wildcard covers the hosts that its key says: those that extend its parent by a dot. */
  ghost predicate CoversByKey(w: Finding)
    requires IsWild(Norm(w))
  {
    forall f :: Covers(w, f) <==> exists p :: Norm(f) == p + ("." + Norm(w)[2..])
  }

  lemma StableCovers(w: Finding)
    requires IsWild(Norm(w)) && NormalizeHost(Norm(w)) == Norm(w)
    ensures CoversByKey(w)
  {
    hide NormalizeHost, Norm, Below;
    forall f
      ensures Covers(w, f) <==> exists p :: Norm(f) == p + ("." + Norm(w)[2..])
    {
      CoverageExact(Norm(w), Norm(f));
    }
  }

  /** A wildcard that covers by its key covers itself, so its key does not grow shorter, and covers a
      finding with its second key. */
  lemma CoversByKeyStable(w: Finding)
    requires IsWild(Norm(w)) && CoversByKey(w)
    ensures NormalizeHost(Norm(w)) == Norm(w)
  {
    hide NormalizeHost, EndsWith;
    var key, again := Norm(w), NormalizeHost(Norm(w));
    assert key == "*" + ("." + key[2..]);
    assert Covers(w, w);
    CoverageExact(again, key);
    var p :| key == p + ("." + again[2..]);
    var second := w.(target := key);
    assert Norm(second) == again;
    CoverageExact(again, again);
    assert Covers(w, second);
    var q :| again == q + ("." + key[2..]);
    assert again[0] == '*' && again[1] == '.';
    assert q != "";
    SameLength(key, again);
  }

  lemma SameLength(key: string, again: string)
    requires IsWild(key) && IsWild(again)
    requires exists p :: key == p + ("." + again[2..])
    requires exists q :: q != "" && again == q + ("." + key[2..])
    ensures again == key
  {
    var p :| key == p + ("." + again[2..]);
    var q :| q != "" && again == q + ("." + key[2..]);
    assert key[0] == '*' && ("" + ("." + again[2..]))[0] == '.';
    assert p != "";
    assert |again| == |key|;
    assert again[1..] == "." + key[2..];
  }

  /** A wildcard finding covers the hosts its key says exactly when its target normalises once and for
      all: when its host part is in none of the three families. */
  lemma CoversByKeyIff(w: Finding)
    requires IsWild(Norm(w))
    ensures CoversByKey(w) <==> NormalizeHost(Norm(w)) == Norm(w)
    ensures var host := HostPort(w.target);
            CoversByKey(w) <==> !SecondAt(host) && !DottedPort(host) && !TwoPorts(host)
  {
    hide CoversByKey, NormalizeHost, SecondAt, DottedPort, TwoPorts;
    IdempotentIff(w.target);
    if CoversByKey(w) {
      CoversByKeyStable(w);
    } else if NormalizeHost(Norm(w)) == Norm(w) {
      StableCovers(w);
    }
  }

  /** The port that the first pass kept is gone in the second, so a host with that port survives. */
  lemma UnstableWildcardMisses(w: Finding, f: Finding)
    requires w.target == "*.a:1." && f.target == "b.a:1."
    ensures IsWild(Norm(w)) && Below(Norm(w), Norm(f)) && !Covers(w, f)
  {
    hide NormalizeHost;
    DottedPortNotIdempotent("*.a", "1");
    DottedPortNotIdempotent("b.a", "1");
    PortStripped("*.a", "1");
    assert "*.a" + [':'] + "1" == "*.a:1" && "*.a:1" + "." == w.target;
    assert "b.a" + [':'] + "1" == "b.a:1" && "b.a:1" + "." == f.target;
    assert Lower("*.a") == "*.a";
    TrimNothing("*.a");
    assert "." + "*.a"[2..] == ".a" && ":1" != ".a";
    assert "*.a:1"[2..] == "a:1" && "*.a"[2..] == "a";
    assert "b.a:1"[1..] == ".a:1";
    assert "b.a:1"[3..] == ":1";
  }

  // ---- The apex of a wildcard ----

  /** Behind an '@' of the key stands another wildcard, with no port. */
  predicate HidesWildcard(key: string) {
    '@' in key && IsWild(After('@', key)) && !HasPort(After('@', key))
  }

  /** What is left of a name when its port is taken off does not cover it. */
  lemma PortNotBelow(rest: string)
    requires HasPort(rest) && ':' in rest
    ensures !Below(TrimEndChar(BeforeLast(':', rest), '.'), rest)
  {
    hide BeforeLast, TrimEndChar, Contains, After;
    var front := BeforeLast(':', rest);
    var key := TrimEndChar(front, '.');
    BeforeLastPrefix(':', rest);
    TrimPrefix(front, '.');
    if IsWild(key) {
      assert key <= rest && rest[0] == key[0] == '*';
      assert !BracketedPort(rest);
      OneColonGone(rest);
      TrimKeepsOthers(front, '.', ':');
      SuffixOfPort(rest, key);
    }
  }

  lemma SuffixOfPort(rest: string, key: string)
    requires IsWild(key) && ':' !in key && ':' in rest && SinglePort(rest)
    ensures !EndsWith(rest, "." + key[2..])
  {
    hide AllDigits;
    var digits, suffix := After(':', rest), "." + key[2..];
    AfterSuffix(':', rest);
    if |rest| >= |suffix| {
      var tail := rest[|rest| - |suffix|..];
      if |suffix| > |digits| {
        assert tail[|suffix| - |digits| - 1] == ':';
        assert ':' !in suffix;
      } else {
        assert tail[0] == digits[|digits| - |suffix|];
        DigitAt(digits, |digits| - |suffix|);
        assert suffix[0] == '.';
      }
    }
  }

  lemma DigitAt(digits: string, i: nat)
    requires AllDigits(digits) && i < |digits|
    ensures digits[i] != '.'
  {
  }

  /** What an apex ends in, the end of its key ends in, if that is as long. */
  lemma ApexEnds(key: string, rest: string, suffix: string)
    requires |key| >= 2 && EndsWith(key, rest) && |suffix| <= |rest|
    ensures EndsWith(key[2..], suffix) ==> EndsWith(rest, suffix)
  {
    assert rest[|rest| - |suffix|..] == key[|key| - |suffix|..];
  }

  /** A wildcard covers its own apex exactly when its key hides another wildcard. */
  lemma ApexCoveredIff(wildcard: Finding, apex: Finding)
    requires IsWild(Norm(wildcard)) && Norm(apex) == Norm(wildcard)[2..]
    ensures Covers(wildcard, apex) <==> HidesWildcard(Norm(wildcard))
  {
    hide NormalizeHost, HasPort, After, BeforeLast, TrimEndChar;
    var key := Norm(wildcard);
    var rest := After('@', key);
    var again := NormalizeHost(key);
    SecondPass(wildcard.target);
    AfterSuffix('@', key);
    if HasPort(rest) {
      HasPortHasColon(rest);
      PortNotBelow(rest);
      BeforeLastPrefix(':', rest);
      TrimPrefix(BeforeLast(':', rest), '.');
      if IsWild(again) {
        ApexEnds(key, rest, "." + again[2..]);
      }
    } else if '@' in key {
      RestWithinApex(key, rest);
    } else {
      WholeKey(key);
      CoverageExact(key, key[2..]);
    }
  }

  lemma WholeKey(key: string)
    requires '@' !in key
    ensures After('@', key) == key
  {
  }

  /** Behind an '@', a wildcard lies whole in the apex. */
  lemma RestWithinApex(key: string, rest: string)
    requires IsWild(key) && |rest| < |key| && EndsWith(key, rest) && key[|key| - |rest| - 1] == '@'
    ensures IsWild(rest) ==> Below(rest, key[2..])
  {
    assert key[0] == '*' && key[1] == '.';
    if IsWild(rest) {
      var suffix := "." + rest[2..];
      assert rest[1..] == suffix;
      assert key[2..][|key| - 2 - |suffix|..] == key[|key| - |suffix|..] == suffix;
    }
  }

  /** An apex is put out of its own wildcard's reach by nothing but a second '@': whatever the findings,
      if no other wildcard covers it, its target survives exactly unless the wildcard's key hides another. */
  lemma ApexSurvivesIff(builds: Builder, findings: seq<Finding>, wildcard: Finding, apex: Finding)
    requires apex in findings && wildcard in findings
    requires IsWild(Norm(wildcard)) && Norm(apex) == Norm(wildcard)[2..]
    requires forall w :: w in findings && Norm(w) != Norm(wildcard) ==> !Covers(w, apex)
    ensures Norm(wildcard) in Norms(Dedup(builds, findings))
    ensures Norm(apex) in Norms(Dedup(builds, findings)) <==> IsWild(Norm(apex)) || !HidesWildcard(Norm(wildcard))
  {
    hide NormalizeHost, Dedup, IsWild, Below, HidesWildcard;
    SurvivorsExact(builds, findings);
    ApexCoveredIff(wildcard, apex);
    assert Kept(findings, wildcard);
    if Kept(findings, apex) {
    } else {
      KeptBySameNorm(findings, apex);
    }
  }

  lemma KeptBySameNorm(findings: seq<Finding>, f: Finding)
    ensures Norm(f) in KeptNorms(findings) ==> Kept(findings, f)
  {
    hide Norm, IsWild, NormalizeHost;
  }

  /** An apex that falls to its own wildcard: of "*.q@*.b" the second pass leaves "*.b". */
  lemma ApexAbsorbed(wildcard: Finding, apex: Finding)
    requires wildcard.target == "z@*.q@*.b" && apex.target == "z@q@*.b"
    ensures Norm(wildcard) == "*.q@*.b" && Norm(apex) == Norm(wildcard)[2..]
    ensures Covers(wildcard, apex)
  {
    hide NormalizeHost, HasPort;
    AfterUser("z", "*.q@*.b");
    AfterUser("z", "q@*.b");
    assert "z" + ['@'] + "*.q@*.b" == wildcard.target && "z" + ['@'] + "q@*.b" == apex.target;
    assert "*.q@*.b"[2..] == "q@*.b";
    AfterJoined('@', "*.q", "*.b");
    assert "*.q" + ['@'] + "*.b" == "*.q@*.b";
    HasPortHasColon("*.b");
    ApexCoveredIff(wildcard, apex);
  }

  lemma AfterUser(user: string, rest: string)
    requires '@' !in user && '/' !in user && '/' !in rest && ':' !in rest
    requires Lower(rest) == rest && rest != "" && rest[|rest| - 1] != '.'
    ensures NormalizeHost(user + ['@'] + rest) == rest
  {
    hide Lower, HasPort, After, Before, StripScheme;
    NoSchemeWithoutSlash(user + ['@'] + rest);
    AfterJoined('@', user, rest);
    BeforeKeeps('/', rest);
    HasPortHasColon(rest);
    TrimNothing(rest);
  }
}
