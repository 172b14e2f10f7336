/** The crawl worklist. The browser is an arbitrary function from a visit to its outcome. */
module Crawl {
  import opened Wrappers
  import opened Forms

  /** A parsed URL: its text, and the host and path the URL library reads off it. */
  datatype Url = Url(text: string, host: Option<string>, path: string)

  datatype Page = Page(
    looksNotFound: bool, fingerprint: string, forms: seq<Form>, links: seq<Option<Url>>, endpoints: seq<Option<Url>>)

  /** A final URL that was not observed, or does not parse, counts as on-host. */
  datatype FinalUrl = Unknown | Known(host: Option<string>)

  datatype Outcome =
    | Unreachable
    | Navigated(status: Option<nat>, final: FinalUrl, page: Option<Page>)

  datatype Item = Item(url: Url, depth: nat)

  datatype Visit = Visit(url: Url, depth: nat, outcome: Outcome)

  /** `browse(n, url)` is what happens when `url` is opened as the n-th page of the crawl. */
  datatype Site = Site(
    seed: Url, robots: seq<Url>, baseline: Option<string>, maxPages: nat, maxDepth: nat,
    browse: (nat, Url) -> Outcome)
  {
    function BaseHost(): string { if seed.host.Some? then seed.host.value else "" }

    predicate Loads(o: Outcome) {
      && o.Navigated?
      && StatusAllowsExtract(o.status)
      && (o.final.Known? ==> o.final.host == Some(BaseHost()))
    }

    predicate Accepts(o: Outcome) {
      Loads(o) && o.page.Some? && !Soft404(o.page.value)
    }

    predicate Soft404(page: Page) {
      page.looksNotFound || baseline == Some(page.fingerprint)
    }

    predicate Expands(v: Visit) {
      Accepts(v.outcome) && MayExpandLinks(baseline) && ShouldRecordDiscovery(v.depth, maxDepth)
    }

    /** The URLs that one visit may add to the crawl: the page's links, then its endpoints. */
    function Links(v: Visit): seq<Option<Url>> {
      if Expands(v) then v.outcome.page.value.links + v.outcome.page.value.endpoints else []
    }

    predicate Eligible(u: Url) {
      u.host == Some(BaseHost()) && !IsDisallowed(u, robots)
    }
  }

  /** The text up to the fragment. */
  function Canonical(u: Url): string { UpTo('#', u.text) }

  function UpTo(c: char, s: string): string {
    if s == "" || s[0] == c then "" else [s[0]] + UpTo(c, s[1..])
  }

  predicate IsDisallowed(u: Url, disallowed: seq<Url>) {
    exists i :: 0 <= i < |disallowed| && disallowed[i].path != "" && disallowed[i].path <= u.path
  }

  predicate ShouldCrawl(u: Url, baseHost: string, visited: set<string>, maxPages: nat) {
    |visited| < maxPages && Canonical(u) !in visited && u.host == Some(baseHost)
  }

  predicate StatusAllowsExtract(status: Option<nat>) { status.Some? && 200 <= status.value < 300 }

  predicate ShouldRecordDiscovery(depth: nat, maxDepth: nat) { depth < maxDepth }

  predicate MayExpandLinks(baseline: Option<string>) { baseline.Some? }

  // ---- What holds throughout a crawl ----

  datatype Frontier = Frontier(
    visited: set<string>, queue: seq<Item>, discovered: seq<Url>, discoveredSeen: set<string>)

  /** The depth label of a URL is the length of a chain of links to it from the seed. */
  ghost predicate Labelled(site: Site, log: seq<Visit>, u: Url, depth: nat) {
    && depth <= site.maxDepth
    && (depth == 0 ==> u == site.seed)
    && (depth > 0 ==> site.Eligible(u) && LinkedFrom(site, log, u, depth))
  }

  ghost predicate LinkedFrom(site: Site, log: seq<Visit>, u: Url, depth: nat) {
    exists j :: 0 <= j < |log| && log[j].depth + 1 == depth && Some(u) in site.Links(log[j])
  }

  ghost predicate LogOk(site: Site, log: seq<Visit>) {
    && (forall j :: 0 <= j < |log| ==>
          && log[j].url.host == Some(site.BaseHost())
          && log[j].outcome == site.browse(j, log[j].url)
          && Labelled(site, log, log[j].url, log[j].depth))
    && (forall i, j :: 0 <= i < j < |log| ==> Canonical(log[i].url) != Canonical(log[j].url))
    && (log != [] ==> log[0].url == site.seed)
  }

  ghost function Canonicals(log: seq<Visit>): set<string> {
    set j | 0 <= j < |log| :: Canonical(log[j].url)
  }

  ghost predicate QueueOk(site: Site, f: Frontier, log: seq<Visit>) {
    forall k :: 0 <= k < |f.queue| ==>
      && Labelled(site, log, f.queue[k].url, f.queue[k].depth)
      && (f.queue[k].depth > 0 ==> f.queue[k].url in f.discovered)
  }

  ghost predicate DiscoveredOk(site: Site, f: Frontier) {
    && (forall u :: u in f.discovered ==>
          site.Eligible(u) && Canonical(u) != Canonical(site.seed) && Canonical(u) in f.discoveredSeen)
    && (forall i, j :: 0 <= i < j < |f.discovered| ==> Canonical(f.discovered[i]) != Canonical(f.discovered[j]))
    && (f.discovered != [] ==> site.baseline.Some?)
    && (forall c :: c in f.discoveredSeen ==> exists u :: u in f.discovered && Canonical(u) == c)
  }

  /** A discovered URL has been visited or is waiting, unless the page budget is spent. */
  ghost predicate NoneLost(site: Site, f: Frontier, log: seq<Visit>) {
    forall u :: u in f.discovered ==>
      Canonical(u) in f.visited || |log| >= site.maxPages || Waiting(f.queue, u)
  }

  ghost predicate Waiting(queue: seq<Item>, u: Url) {
    exists k :: 0 <= k < |queue| && queue[k].url == u && queue[k].depth > 0
  }

  /** Every eligible link found on a page has been visited or discovered. */
  ghost predicate Recorded(site: Site, f: Frontier, links: seq<Option<Url>>) {
    forall k :: 0 <= k < |links| && links[k].Some? && site.Eligible(links[k].value) ==>
      Canonical(links[k].value) in f.visited + f.discoveredSeen
  }

  /** Every discovered URL was found on an expanded page. */
  ghost predicate Grounded(site: Site, discovered: seq<Url>, log: seq<Visit>) {
    forall k :: 0 <= k < |discovered| ==> FoundOn(site, log, discovered[k])
  }

  ghost predicate FoundOn(site: Site, log: seq<Visit>, u: Url) {
    exists j :: 0 <= j < |log| && Some(u) in site.Links(log[j])
  }

  ghost predicate FrontierOk(site: Site, f: Frontier, log: seq<Visit>) {
    && Grounded(site, f.discovered, log)
    && f.visited == Canonicals(log)
    && |f.visited| == |log| <= site.maxPages
    && QueueOk(site, f, log)
    && DiscoveredOk(site, f)
    && NoneLost(site, f, log)
    && (log == [] ==> f.discovered == [])
  }

  ghost predicate AllRecorded(site: Site, f: Frontier, log: seq<Visit>) {
    forall j :: 0 <= j < |log| ==> Recorded(site, f, site.Links(log[j]))
  }

  lemma LabelledGrows(site: Site, log: seq<Visit>, v: Visit, u: Url, depth: nat)
    requires Labelled(site, log, u, depth)
    ensures Labelled(site, log + [v], u, depth)
  {
    if depth > 0 {
      var j :| 0 <= j < |log| && log[j].depth + 1 == depth && Some(u) in site.Links(log[j]);
      assert (log + [v])[j] == log[j];
    }
  }

  /** The popped item is passed over only if it is already visited, the budget is spent, or it is a
      seed on no host. */
  lemma SkipKeeps(site: Site, f: Frontier, log: seq<Visit>)
    requires FrontierOk(site, f, log) && f.queue != []
    requires var item := f.queue[|f.queue| - 1];
             (item.depth > 0 && IsDisallowed(item.url, site.robots))
             || !ShouldCrawl(item.url, site.BaseHost(), f.visited, site.maxPages)
    ensures FrontierOk(site, f.(queue := f.queue[..|f.queue| - 1]), log)
  {
    hide Canonical, Site.Eligible, Site.Links, DiscoveredOk;
    var rest := f.queue[..|f.queue| - 1];
    SkipDiscovered(site, f, rest);
    EligibleItem(site, f, log);
    forall u | u in f.discovered && Canonical(u) !in f.visited && |log| < site.maxPages
      ensures Waiting(rest, u)
    {
      var k :| 0 <= k < |f.queue| && f.queue[k].url == u && f.queue[k].depth > 0;
      assert k < |rest|;
      assert rest[k] == f.queue[k];
    }
  }

  lemma SkipDiscovered(site: Site, f: Frontier, rest: seq<Item>)
    requires DiscoveredOk(site, f)
    ensures DiscoveredOk(site, f.(queue := rest))
  {
  }

  lemma EligibleItem(site: Site, f: Frontier, log: seq<Visit>)
    requires QueueOk(site, f, log) && f.queue != []
    ensures var item := f.queue[|f.queue| - 1];
            item.depth > 0 ==> item.url.host == Some(site.BaseHost()) && !IsDisallowed(item.url, site.robots)
  {
  }

  /** Opening a page moves its item from the queue to the log. */
  lemma VisitKeeps(site: Site, f: Frontier, log: seq<Visit>)
    requires LogOk(site, log) && FrontierOk(site, f, log) && f.queue != []
    requires log == [] ==> f.queue == [Item(site.seed, 0)]
    requires ShouldCrawl(f.queue[|f.queue| - 1].url, site.BaseHost(), f.visited, site.maxPages)
    ensures var item := f.queue[|f.queue| - 1];
            var log' := log + [Visit(item.url, item.depth, site.browse(|log|, item.url))];
            var f' := f.(queue := f.queue[..|f.queue| - 1], visited := f.visited + {Canonical(item.url)});
            LogOk(site, log') && FrontierOk(site, f', log')
  {
    hide Canonical, Labelled, Site.Eligible, Site.Links, Site.BaseHost, DiscoveredOk, Grounded;
    assert log == [] ==> f.queue[0] == Item(site.seed, 0);
    var item, rest := f.queue[|f.queue| - 1], f.queue[..|f.queue| - 1];
    var v := Visit(item.url, item.depth, site.browse(|log|, item.url));
    LogGrows(site, log, v);
    CanonicalsGrow(log, v);
    QueueShrinks(site, f, log, v);
    NoneLostOnVisit(site, f, log, v);
    GroundedGrows(site, f.discovered, log, v);
    VisitDiscovered(site, f, Canonical(item.url), rest);
  }

  lemma GroundedGrows(site: Site, discovered: seq<Url>, log: seq<Visit>, v: Visit)
    requires Grounded(site, discovered, log)
    ensures Grounded(site, discovered, log + [v])
  {
    hide Site.Links;
    forall k | 0 <= k < |discovered|
      ensures FoundOn(site, log + [v], discovered[k])
    {
      assert FoundOn(site, log, discovered[k]);
      var j :| 0 <= j < |log| && Some(discovered[k]) in site.Links(log[j]);
      assert (log + [v])[j] == log[j];
    }
  }

  lemma VisitDiscovered(site: Site, f: Frontier, c: string, rest: seq<Item>)
    requires DiscoveredOk(site, f)
    ensures DiscoveredOk(site, f.(queue := rest, visited := f.visited + {c}))
  {
  }

  lemma QueueShrinks(site: Site, f: Frontier, log: seq<Visit>, v: Visit)
    requires QueueOk(site, f, log) && f.queue != []
    ensures var f' := f.(queue := f.queue[..|f.queue| - 1], visited := f.visited + {Canonical(v.url)});
            QueueOk(site, f', log + [v])
  {
    hide Canonical, Labelled;
    var rest := f.queue[..|f.queue| - 1];
    forall k | 0 <= k < |rest|
      ensures Labelled(site, log + [v], rest[k].url, rest[k].depth)
    {
      assert rest[k] == f.queue[k];
      LabelledGrows(site, log, v, rest[k].url, rest[k].depth);
    }
  }

  lemma NoneLostOnVisit(site: Site, f: Frontier, log: seq<Visit>, v: Visit)
    requires NoneLost(site, f, log) && f.queue != [] && f.queue[|f.queue| - 1].url == v.url
    ensures var f' := f.(queue := f.queue[..|f.queue| - 1], visited := f.visited + {Canonical(v.url)});
            NoneLost(site, f', log + [v])
  {
    hide Canonical;
    var rest := f.queue[..|f.queue| - 1];
    forall u | u in f.discovered && Canonical(u) !in f.visited + {Canonical(v.url)} && |log| + 1 < site.maxPages
      ensures Waiting(rest, u)
    {
      var k :| 0 <= k < |f.queue| && f.queue[k].url == u && f.queue[k].depth > 0;
      assert rest[k] == f.queue[k];
    }
  }

  lemma LogGrows(site: Site, log: seq<Visit>, v: Visit)
    requires LogOk(site, log)
    requires v.outcome == site.browse(|log|, v.url) && v.url.host == Some(site.BaseHost())
    requires Labelled(site, log, v.url, v.depth)
    requires Canonical(v.url) !in Canonicals(log)
    requires log == [] ==> v.url == site.seed
    ensures LogOk(site, log + [v])
  {
    hide Canonical, Labelled, Site.BaseHost;
    var log' := log + [v];
    forall j | 0 <= j < |log'|
      ensures Labelled(site, log', log'[j].url, log'[j].depth)
    {
      LabelledGrows(site, log, v, log'[j].url, log'[j].depth);
    }
    forall i | 0 <= i < |log|
      ensures Canonical(log[i].url) != Canonical(v.url)
    {
      assert Canonical(log[i].url) in Canonicals(log);
    }
  }

  lemma CanonicalsGrow(log: seq<Visit>, v: Visit)
    ensures Canonicals(log + [v]) == Canonicals(log) + {Canonical(v.url)}
  {
    hide Canonical;
    var log' := log + [v];
    forall c
      ensures c in Canonicals(log') <==> c in Canonicals(log) + {Canonical(v.url)}
    {
      if c in Canonicals(log) {
        var j :| 0 <= j < |log| && Canonical(log[j].url) == c;
        assert log'[j] == log[j];
      }
      if c == Canonical(v.url) {
        assert log'[|log|] == v;
      }
    }
  }

  /** One link of the page just opened. */
  function AddLink(site: Site, f: Frontier, link: Option<Url>, depth: nat): Frontier {
    match link
    case None => f
    case Some(u) =>
      if u.host == Some(site.BaseHost()) && Canonical(u) !in f.visited && !IsDisallowed(u, site.robots)
         && Canonical(u) !in f.discoveredSeen then
        Discover(f, u, depth + 1)
      else
        f
  }

  lemma AddLinkKeeps(site: Site, f: Frontier, log: seq<Visit>, link: Option<Url>)
    requires LogOk(site, log) && FrontierOk(site, f, log) && log != []
    requires link in site.Links(log[|log| - 1])
    ensures var f' := AddLink(site, f, link, log[|log| - 1].depth);
            FrontierOk(site, f', log) && Recorded(site, f', [link])
  {
    hide Canonical, UpTo, IsDisallowed, QueueOk, DiscoveredOk, NoneLost, LogOk, FoundOn;
    var last := log[|log| - 1];
    if AddLink(site, f, link, last.depth) != f {
      var u := link.value;
      SeedVisited(site, log);
      DiscoveryLabelled(site, log, u);
      DiscoverKeepsQueue(site, f, log, u, last.depth + 1);
      DiscoverKeepsDiscovered(site, f, u, last.depth + 1);
      DiscoverKeepsNoneLost(site, f, log, u, last.depth + 1);
    }
  }

  function Discover(f: Frontier, u: Url, depth: nat): Frontier {
    f.(discovered := f.discovered + [u],
       queue := f.queue + [Item(u, depth)],
       discoveredSeen := f.discoveredSeen + {Canonical(u)})
  }

  lemma SeedVisited(site: Site, log: seq<Visit>)
    requires LogOk(site, log) && log != []
    ensures Canonical(site.seed) in Canonicals(log)
  {
    assert Canonical(log[0].url) in Canonicals(log);
  }

  lemma DiscoveryLabelled(site: Site, log: seq<Visit>, u: Url)
    requires log != [] && Some(u) in site.Links(log[|log| - 1]) && site.Eligible(u)
    ensures Labelled(site, log, u, log[|log| - 1].depth + 1) && FoundOn(site, log, u)
    ensures site.baseline.Some?
  {
    hide Site.Accepts, Site.Eligible;
  }

  lemma DiscoverKeepsQueue(site: Site, f: Frontier, log: seq<Visit>, u: Url, depth: nat)
    requires QueueOk(site, f, log) && Labelled(site, log, u, depth)
    ensures QueueOk(site, Discover(f, u, depth), log)
  {
    hide Canonical, Labelled;
    assert Discover(f, u, depth).discovered[|f.discovered|] == u;
  }

  lemma DiscoverKeepsDiscovered(site: Site, f: Frontier, u: Url, depth: nat)
    requires DiscoveredOk(site, f) && site.Eligible(u) && site.baseline.Some?
    requires Canonical(u) != Canonical(site.seed) && Canonical(u) !in f.discoveredSeen
    ensures DiscoveredOk(site, Discover(f, u, depth))
  {
    hide Canonical, Site.Eligible;
    var f' := Discover(f, u, depth);
    assert f'.discovered[|f.discovered|] == u;
    forall c | c in f'.discoveredSeen
      ensures exists w :: w in f'.discovered && Canonical(w) == c
    {
      if c != Canonical(u) {
        var w :| w in f.discovered && Canonical(w) == c;
        assert w in f'.discovered;
      }
    }
  }

  lemma DiscoverKeepsNoneLost(site: Site, f: Frontier, log: seq<Visit>, u: Url, depth: nat)
    requires NoneLost(site, f, log) && depth > 0
    ensures NoneLost(site, Discover(f, u, depth), log)
  {
    hide Canonical;
    var queue := Discover(f, u, depth).queue;
    assert queue[|f.queue|] == Item(u, depth);
    forall w | Waiting(f.queue, w)
      ensures Waiting(queue, w)
    {
      var k :| 0 <= k < |f.queue| && f.queue[k].url == w && f.queue[k].depth > 0;
      assert queue[k] == f.queue[k];
    }
  }

  // ---- Statuses and forms ----

  ghost predicate StatusesOk(site: Site, status: map<string, nat>, log: seq<Visit>) {
    && (forall j :: 0 <= j < |log| && site.Loads(log[j].outcome) ==>
          Canonical(log[j].url) in status && status[Canonical(log[j].url)] == log[j].outcome.status.value)
    && (forall c :: c in status ==> exists j :: 0 <= j < |log| && site.Loads(log[j].outcome) && Canonical(log[j].url) == c)
  }

  lemma StatusesGrow(site: Site, status: map<string, nat>, log: seq<Visit>, v: Visit)
    requires StatusesOk(site, status, log) && Canonical(v.url) !in Canonicals(log)
    ensures StatusesOk(site,
                       if site.Loads(v.outcome) then status[Canonical(v.url) := v.outcome.status.value] else status,
                       log + [v])
  {
    hide Canonical, Site.Loads;
    var log' := log + [v];
    forall j | 0 <= j < |log|
      ensures Canonical(log[j].url) != Canonical(v.url)
    {
      assert Canonical(log[j].url) in Canonicals(log);
    }
    forall c | c in status
      ensures exists j :: 0 <= j < |log'| && site.Loads(log'[j].outcome) && Canonical(log'[j].url) == c
    {
      var j :| 0 <= j < |log| && site.Loads(log[j].outcome) && Canonical(log[j].url) == c;
      assert log'[j] == log[j];
    }
    assert log'[|log|] == v;
  }

  /** The forms on all accepted pages, in the order of the visits. */
  function FormsSeen(site: Site, log: seq<Visit>): seq<Form> {
    if log == [] then []
    else
      var o := log[|log| - 1].outcome;
      FormsSeen(site, log[..|log| - 1]) + (if site.Accepts(o) then o.page.value.forms else [])
  }

  lemma FormsSeenGrow(site: Site, log: seq<Visit>, v: Visit)
    ensures FormsSeen(site, log + [v]) == FormsSeen(site, log) + (if site.Accepts(v.outcome) then v.outcome.page.value.forms else [])
  {
    hide Site.Accepts;
    assert (log + [v])[..|log|] == log;
  }

  method RecordForms(table: FormTable, forms: seq<Form>, ghost earlier: seq<Form>)
    requires table.Valid() && table.Contents() == Collect(earlier)
    modifies table
    ensures table.Valid() && table.Contents() == Collect(earlier + forms)
  {
    assert earlier + forms[..0] == earlier;
    for i := 0 to |forms|
      invariant table.Valid() && table.Contents() == Collect(earlier + forms[..i])
    {
      assert (earlier + forms[..i + 1])[..|earlier| + i] == earlier + forms[..i];
      table.RecordForm(forms[i]);
    }
    assert forms[..|forms|] == forms;
  }

  // ---- The loop ----

  lemma VisitRecords(site: Site, f: Frontier, f': Frontier, log: seq<Visit>)
    requires AllRecorded(site, f, log) && f.visited <= f'.visited && f.discoveredSeen <= f'.discoveredSeen
    ensures AllRecorded(site, f', log)
  {
    hide Canonical, Site.Eligible, Site.Links;
  }

  /** Adds the links of the page just opened, one by one. */
  method AddLinks(site: Site, before: Frontier, links: seq<Option<Url>>, depth: nat, ghost log: seq<Visit>)
    returns (f: Frontier)
    requires LogOk(site, log) && FrontierOk(site, before, log) && log != []
    requires depth == log[|log| - 1].depth
    requires forall k :: 0 <= k < |links| ==> links[k] in site.Links(log[|log| - 1])
    ensures FrontierOk(site, f, log) && Recorded(site, f, links)
    ensures f.visited == before.visited && before.discoveredSeen <= f.discoveredSeen
  {
    hide Canonical, Site.Eligible, Site.Links, FrontierOk, LogOk;
    f := before;
    for i := 0 to |links|
      invariant FrontierOk(site, f, log)
      invariant f.visited == before.visited && before.discoveredSeen <= f.discoveredSeen
      invariant forall k :: 0 <= k < i && links[k].Some? && site.Eligible(links[k].value) ==>
                  Canonical(links[k].value) in f.visited + f.discoveredSeen
    {
      AddLinkKeeps(site, f, log, links[i]);
      assert [links[i]][0] == links[i];
      f := AddLink(site, f, links[i], depth);
    }
  }

  datatype Emitted = Emitted(url: Url, status: nat)

  /** What a finished crawl leaves behind. */
  ghost predicate Finished(site: Site, f: Frontier, log: seq<Visit>) {
    && LogOk(site, log)
    && FrontierOk(site, f, log)
    && AllRecorded(site, f, log)
    && f.queue == []
  }

  lemma Start(site: Site)
    ensures var f := Frontier({}, [Item(site.seed, 0)], [], {});
            LogOk(site, []) && FrontierOk(site, f, []) && AllRecorded(site, f, [])
    ensures StatusesOk(site, map[], []) && Collect(FormsSeen(site, [])) == Collected([], [])
  {
  }

  lemma FrontierCount(site: Site, f: Frontier, log: seq<Visit>)
    requires FrontierOk(site, f, log)
    ensures |f.visited| == |log| <= site.maxPages && f.visited == Canonicals(log)
    ensures log == [] ==> f.discovered == []
  {
  }

  /** What the newest page links to completes the record. */
  lemma NewestRecorded(site: Site, f: Frontier, log: seq<Visit>, v: Visit)
    requires AllRecorded(site, f, log)
    requires site.Expands(v) ==>
               Recorded(site, f, v.outcome.page.value.links) && Recorded(site, f, v.outcome.page.value.endpoints)
    ensures AllRecorded(site, f, log + [v])
  {
    hide Canonical, Site.Eligible;
    var log' := log + [v];
    forall j | 0 <= j < |log'|
      ensures Recorded(site, f, site.Links(log'[j]))
    {
      if j == |log| && site.Expands(v) {
        BothRecorded(site, f, v.outcome.page.value.links, v.outcome.page.value.endpoints);
      }
    }
  }

  lemma BothRecorded(site: Site, f: Frontier, a: seq<Option<Url>>, b: seq<Option<Url>>)
    requires Recorded(site, f, a) && Recorded(site, f, b)
    ensures Recorded(site, f, a + b)
  {
    hide Canonical, Site.Eligible;
    forall k | 0 <= k < |a + b| && (a + b)[k].Some? && site.Eligible((a + b)[k].value)
      ensures Canonical((a + b)[k].value) in f.visited + f.discoveredSeen
    {
      if k < |a| {
        assert a[k] == (a + b)[k];
      } else {
        assert b[k - |a|] == (a + b)[k];
      }
    }
  }

  /** Adds what the newest page links to, if it is to be expanded. */
  method ExpandPage(site: Site, before: Frontier, v: Visit, ghost log: seq<Visit>) returns (f: Frontier)
    requires LogOk(site, log + [v]) && FrontierOk(site, before, log + [v]) && AllRecorded(site, before, log)
    ensures FrontierOk(site, f, log + [v]) && AllRecorded(site, f, log + [v])
    ensures f.visited == before.visited
  {
    hide Canonical, Site.Eligible, LogOk, FrontierOk, AllRecorded, Recorded;
    f := before;
    if site.Expands(v) {
      var page := v.outcome.page.value;
      assert site.Links((log + [v])[|log|]) == page.links + page.endpoints;
      f := AddLinks(site, f, page.links, v.depth, log + [v]);
      var middle := f;
      f := AddLinks(site, f, page.endpoints, v.depth, log + [v]);
      StillRecorded(site, middle, f, page.links);
    }
    VisitRecords(site, before, f, log);
    NewestRecorded(site, f, log, v);
  }

  lemma StillRecorded(site: Site, f: Frontier, f': Frontier, links: seq<Option<Url>>)
    requires Recorded(site, f, links) && f.visited <= f'.visited && f.discoveredSeen <= f'.discoveredSeen
    ensures Recorded(site, f', links)
  {
    hide Canonical, Site.Eligible;
  }

  /** The worklist: pops an item, opens its page unless it is passed over, and adds what it links to. */
  method Explore(site: Site) returns (f: Frontier, table: FormTable, urlStatus: map<string, nat>, ghost log: seq<Visit>)
    ensures Finished(site, f, log)
    ensures log == [] <==> site.maxPages == 0 || site.seed.host.None?
    ensures StatusesOk(site, urlStatus, log)
    ensures table.Contents() == Collect(FormsSeen(site, log))
  {
    hide Canonical, Site.Links, Site.Eligible, LogOk, FrontierOk, StatusesOk, AllRecorded, FormsSeen, Collect, Canonicals;
    Start(site);
    f := Frontier({}, [Item(site.seed, 0)], [], {});
    table := new FormTable();
    urlStatus := map[];
    log := [];
    while f.queue != []
      invariant LogOk(site, log) && FrontierOk(site, f, log) && AllRecorded(site, f, log)
      invariant log == [] ==> f.queue == [Item(site.seed, 0)] || (f.queue == [] && (site.maxPages == 0 || site.seed.host.None?))
      invariant log != [] ==> site.maxPages > 0 && site.seed.host.Some?
      invariant StatusesOk(site, urlStatus, log)
      invariant fresh(table) && table.Valid() && table.Contents() == Collect(FormsSeen(site, log))
      decreases site.maxPages - |f.visited|, |f.queue|
    {
      FrontierCount(site, f, log);
      var item := f.queue[|f.queue| - 1];
      var popped := f.(queue := f.queue[..|f.queue| - 1]);
      if (item.depth > 0 && IsDisallowed(item.url, site.robots))
         || !ShouldCrawl(item.url, site.BaseHost(), f.visited, site.maxPages)
      {
        SkipKeeps(site, f, log);
        VisitRecords(site, f, popped, log);
        f := popped;
      } else {
        var outcome := site.browse(|f.visited|, item.url);
        var v := Visit(item.url, item.depth, outcome);
        VisitKeeps(site, f, log);
        StatusesGrow(site, urlStatus, log, v);
        FormsSeenGrow(site, log, v);
        var visiting := popped.(visited := f.visited + {Canonical(item.url)});
        VisitRecords(site, f, visiting, log);
        if site.Loads(outcome) {
          urlStatus := urlStatus[Canonical(item.url) := outcome.status.value];
        }
        assert FormsSeen(site, log) + [] == FormsSeen(site, log);
        if site.Accepts(outcome) {
          RecordForms(table, outcome.page.value.forms, FormsSeen(site, log));
        }
        f := ExpandPage(site, visiting, v, log);
        log := log + [v];
      }
    }
  }

  // ---- What a finished crawl has done, and has not done ----

  /** Within the page budget, on the seed's host, and (the seed aside) allowed by robots.txt; nothing
      is emitted twice or under the seed's own canonical URL, and nothing without a baseline. */
  lemma CrawlIsSafe(site: Site, f: Frontier, log: seq<Visit>)
    requires Finished(site, f, log)
    ensures |f.visited| == |log| <= site.maxPages
    ensures forall j :: 0 <= j < |log| ==>
              && log[j].url.host == Some(site.BaseHost())
              && log[j].depth <= site.maxDepth
              && (log[j].url == site.seed || !IsDisallowed(log[j].url, site.robots))
    ensures forall u :: u in f.discovered ==>
              u.host == Some(site.BaseHost()) && !IsDisallowed(u, site.robots) && Canonical(u) != Canonical(site.seed)
    ensures forall i, j :: 0 <= i < j < |f.discovered| ==> Canonical(f.discovered[i]) != Canonical(f.discovered[j])
    ensures site.baseline.None? ==> f.discovered == []
  {
    hide Canonical, Site.Links, IsDisallowed;
  }

  /** With budget to spare, the crawl is closed: every URL emitted, and every eligible link found on
      a page that was expanded, has been visited. */
  lemma CrawlIsClosed(site: Site, f: Frontier, log: seq<Visit>)
    requires Finished(site, f, log) && |log| < site.maxPages
    ensures forall u :: u in f.discovered ==> Canonical(u) in Canonicals(log)
    ensures forall j, u :: 0 <= j < |log| && Some(u) in site.Links(log[j]) && site.Eligible(u) ==>
              Canonical(u) in Canonicals(log)
  {
    hide Canonical, Site.Links, Site.Eligible, LogOk;
    forall j, u | 0 <= j < |log| && Some(u) in site.Links(log[j]) && site.Eligible(u)
      ensures Canonical(u) in Canonicals(log)
    {
      assert Recorded(site, f, site.Links(log[j]));
      var k :| 0 <= k < |site.Links(log[j])| && site.Links(log[j])[k] == Some(u);
      assert Canonical(u) in f.visited + f.discoveredSeen;
    }
  }

  /** A chain of links from the seed: the i-th URL is an expanded page of the log, labelled i, that
      links to the next. */
  ghost predicate IsLinkPath(site: Site, log: seq<Visit>, path: seq<Url>) {
    && path != []
    && path[0] == site.seed
    && forall i :: 0 <= i < |path| - 1 ==> LinksTo(site, log, path[i], path[i + 1], i)
  }

  ghost predicate LinksTo(site: Site, log: seq<Visit>, from: Url, to: Url, depth: nat) {
    exists j :: 0 <= j < |log| && log[j].url == from && log[j].depth == depth && Some(to) in site.Links(log[j])
  }

  /** Every depth label is the length of a link path from the seed through expanded pages. */
  lemma {:induction false} LabelHasPath(site: Site, log: seq<Visit>, u: Url, depth: nat) returns (path: seq<Url>)
    requires LogOk(site, log) && Labelled(site, log, u, depth)
    ensures IsLinkPath(site, log, path) && |path| == depth + 1 && path[depth] == u
    decreases depth
  {
    hide LogOk, Labelled, IsLinkPath, LinksTo;
    if depth == 0 {
      SeedPath(site, log, u);
      path := [u];
    } else {
      var j := Predecessor(site, log, u, depth);
      var before := LabelHasPath(site, log, log[j].url, depth - 1);
      PathExtends(site, log, before, u);
      path := before + [u];
    }
  }

  /** Every emitted URL ends a link path from the seed of at most `max_depth` links. */
  lemma EmittedHasPath(site: Site, f: Frontier, log: seq<Visit>, k: nat) returns (path: seq<Url>)
    requires Finished(site, f, log) && k < |f.discovered|
    ensures IsLinkPath(site, log, path) && 1 < |path| <= site.maxDepth + 1
    ensures path[|path| - 1] == f.discovered[k]
  {
    hide Canonical, Site.Eligible, IsLinkPath, LogOk, AllRecorded;
    var u := f.discovered[k];
    assert FoundOn(site, log, u);
    var j :| 0 <= j < |log| && Some(u) in site.Links(log[j]);
    assert Labelled(site, log, u, log[j].depth + 1);
    path := LabelHasPath(site, log, u, log[j].depth + 1);
  }

  lemma Predecessor(site: Site, log: seq<Visit>, u: Url, depth: nat) returns (j: nat)
    requires LogOk(site, log) && Labelled(site, log, u, depth) && depth > 0
    ensures j < |log| && Labelled(site, log, log[j].url, depth - 1)
    ensures LinksTo(site, log, log[j].url, u, depth - 1)
  {
    hide Canonical, Site.Links, Site.Eligible;
    j :| 0 <= j < |log| && log[j].depth + 1 == depth && Some(u) in site.Links(log[j]);
    assert Labelled(site, log, log[j].url, log[j].depth);
  }

  lemma SeedPath(site: Site, log: seq<Visit>, u: Url)
    requires Labelled(site, log, u, 0)
    ensures IsLinkPath(site, log, [u])
  {
  }

  lemma PathExtends(site: Site, log: seq<Visit>, path: seq<Url>, u: Url)
    requires IsLinkPath(site, log, path) && LinksTo(site, log, path[|path| - 1], u, |path| - 1)
    ensures IsLinkPath(site, log, path + [u])
  {
    hide LinksTo;
  }

  /** The discovered URLs with their statuses, 0 where the page did not load. The filter against the
      seed never fires. */
  method EmitDiscovered(site: Site, f: Frontier, urlStatus: map<string, nat>, ghost log: seq<Visit>) returns (results: seq<Emitted>)
    requires Finished(site, f, log)
    ensures |results| == |f.discovered|
    ensures forall k :: 0 <= k < |results| ==>
              results[k] == Emitted(f.discovered[k],
                                    if Canonical(f.discovered[k]) in urlStatus then urlStatus[Canonical(f.discovered[k])] else 0)
  {
    hide Canonical, Site.Links, Site.Eligible, LogOk, AllRecorded, QueueOk, NoneLost;
    results := [];
    for i := 0 to |f.discovered|
      invariant |results| == i
      invariant forall k :: 0 <= k < i ==>
                  results[k] == Emitted(f.discovered[k],
                                        if Canonical(f.discovered[k]) in urlStatus then urlStatus[Canonical(f.discovered[k])] else 0)
    {
      var u := f.discovered[i];
      SameTextSameCanonical(u, site.seed);
      if u.text == site.seed.text {
        continue;
      }
      var status := if Canonical(u) in urlStatus then urlStatus[Canonical(u)] else 0;
      results := results + [Emitted(u, status)];
    }
  }

  /** The status is the one with which the page of that canonical URL loaded, or the default if it did
      not load. */
  ghost predicate StatusMatches(site: Site, log: seq<Visit>, e: Emitted, default: nat) {
    && (forall j :: 0 <= j < |log| && site.Loads(log[j].outcome) && Canonical(log[j].url) == Canonical(e.url) ==>
          e.status == log[j].outcome.status.value)
    && ((forall j :: 0 <= j < |log| && site.Loads(log[j].outcome) ==> Canonical(log[j].url) != Canonical(e.url)) ==>
          e.status == default)
  }

  lemma StatusFromMap(site: Site, status: map<string, nat>, log: seq<Visit>, u: Url, default: nat)
    requires StatusesOk(site, status, log)
    ensures StatusMatches(site, log, Emitted(u, if Canonical(u) in status then status[Canonical(u)] else default), default)
  {
    hide Canonical, Site.Loads;
  }

  // ---- Which pages give anything ----

  /** A page that answered with a success, and is not known to be off the seed's host. */
  predicate Reached(site: Site, o: Outcome) {
    && o.Navigated?
    && o.status.Some? && 200 <= o.status.value <= 299
    && (o.final.Known? ==> o.final.host.Some? && o.final.host == site.seed.host)
  }

  /** One that was read, too, and neither looks like a missing page nor is the page of a made-up path. */
  predicate Open(site: Site, o: Outcome) {
    && Reached(site, o)
    && o.page.Some?
    && !o.page.value.looksNotFound
    && (site.baseline.Some? ==> o.page.value.fingerprint != site.baseline.value)
  }

  /** The status such a page gives, or the default. */
  function StatusSeen(site: Site, o: Outcome, default: nat): nat {
    if Reached(site, o) then o.status.value else default
  }

  predicate OpenWithForm(site: Site, o: Outcome, form: Form) { Open(site, o) && form in o.page.value.forms }

  predicate OpenWithLink(site: Site, v: Visit, link: Option<Url>) {
    && Open(site, v.outcome) && v.depth < site.maxDepth
    && (link in v.outcome.page.value.links || link in v.outcome.page.value.endpoints)
  }

  predicate HostAndRobotsAllow(site: Site, u: Url) {
    && u.host.Some? && u.host == site.seed.host
    && forall i :: 0 <= i < |site.robots| ==> site.robots[i].path == "" || !(site.robots[i].path <= u.path)
  }

  lemma GatesAre(site: Site, o: Outcome)
    requires site.seed.host.Some?
    ensures site.Loads(o) <==> Reached(site, o)
    ensures site.Accepts(o) <==> Open(site, o)
  {
  }

  lemma EligibleIs(site: Site, u: Url)
    requires site.seed.host.Some?
    ensures site.Eligible(u) <==> HostAndRobotsAllow(site, u)
  {
  }

  /** The links of an open page above the depth limit, if there is a baseline; no others. */
  lemma LinksAre(site: Site, v: Visit, link: Option<Url>)
    requires site.seed.host.Some?
    ensures link in site.Links(v)
            <==> site.baseline.Some? && OpenWithLink(site, v, link)
  {
    hide Open, Site.Accepts;
    GatesAre(site, v.outcome);
  }

  /** A status was seen on a page that was reached; a page that was not gives none. */
  ghost predicate StatusFromReached(site: Site, log: seq<Visit>, e: Emitted, default: nat) {
    && (forall j :: 0 <= j < |log| && Canonical(log[j].url) == Canonical(e.url) ==>
          e.status == StatusSeen(site, log[j].outcome, default))
    && ((forall j :: 0 <= j < |log| ==> Canonical(log[j].url) != Canonical(e.url)) ==> e.status == default)
  }

  function StatusOf(o: Outcome): nat { if o.Navigated? && o.status.Some? then o.status.value else 0 }

  lemma SeenIs(site: Site, o: Outcome, default: nat)
    requires site.seed.host.Some?
    ensures StatusSeen(site, o, default) == if site.Loads(o) then StatusOf(o) else default
    ensures site.Loads(o) ==> StatusOf(o) == o.status.value
  {
  }

  lemma StatusReached(site: Site, log: seq<Visit>, e: Emitted, default: nat)
    requires LogOk(site, log) && (log != [] ==> site.seed.host.Some?) && StatusMatches(site, log, e, default)
    ensures StatusFromReached(site, log, e, default)
  {
    hide Canonical, Labelled, Reached, Site.Loads, StatusSeen;
    forall j | 0 <= j < |log|
      ensures site.Loads(log[j].outcome) <==> Reached(site, log[j].outcome)
      ensures StatusSeen(site, log[j].outcome, default) == if site.Loads(log[j].outcome) then StatusOf(log[j].outcome) else default
    {
      GatesAre(site, log[j].outcome);
      SeenIs(site, log[j].outcome, default);
    }
    forall j | 0 <= j < |log| && Canonical(log[j].url) == Canonical(e.url)
      ensures e.status == StatusSeen(site, log[j].outcome, default)
    {
      SeenIs(site, log[j].outcome, default);
      if !site.Loads(log[j].outcome) {
        forall i | 0 <= i < |log| && site.Loads(log[i].outcome)
          ensures Canonical(log[i].url) != Canonical(e.url)
        {
          assert i != j;
          if i < j {
            assert Canonical(log[i].url) != Canonical(log[j].url);
          } else {
            assert Canonical(log[j].url) != Canonical(log[i].url);
          }
        }
      }
    }
  }

  ghost predicate FormOnOpenPage(site: Site, log: seq<Visit>, form: Form) {
    exists j :: 0 <= j < |log| && OpenWithForm(site, log[j].outcome, form)
  }

  lemma FormsOpen(site: Site, o: Outcome, form: Form)
    requires site.seed.host.Some?
    ensures OpenWithForm(site, o, form) <==> site.Accepts(o) && form in o.page.value.forms
  {
    GatesAre(site, o);
  }

  lemma {:induction false} FormsSeenOnOpen(site: Site, log: seq<Visit>, form: Form)
    requires log != [] ==> site.seed.host.Some?
    ensures form in FormsSeen(site, log) <==> FormOnOpenPage(site, log, form)
  {
    hide Open, OpenWithForm, Site.Accepts;
    if log != [] {
      var init, last := log[..|log| - 1], log[|log| - 1];
      FormsSeenOnOpen(site, init, form);
      FormsOpen(site, last.outcome, form);
      assert log == init + [last];
      if FormOnOpenPage(site, init, form) {
        var j :| 0 <= j < |init| && OpenWithForm(site, init[j].outcome, form);
        assert log[j] == init[j];
      }
      if FormOnOpenPage(site, log, form) {
        var j :| 0 <= j < |log| && OpenWithForm(site, log[j].outcome, form);
        assert j < |init| ==> init[j] == log[j];
      }
    }
  }

  /** Every form kept was on an open page, and every form on an open page has been kept, up to repetition; every
      parameter kept is an input of a form on an open page. */
  ghost predicate CollectedFromOpen(site: Site, log: seq<Visit>, c: Collected) {
    && (forall form :: form in c.forms ==> FormOnOpenPage(site, log, form))
    && (forall form :: FormOnOpenPage(site, log, form) ==> HasForm(c.forms, FormKey(form)))
    && (forall i :: 0 <= i < |c.params| ==> ParamOnOpenPage(site, log, c.params[i]))
  }

  ghost predicate ParamOnOpenPage(site: Site, log: seq<Visit>, param: Param) {
    exists form :: FormOnOpenPage(site, log, form) && LocationOf(form) == param.location && Names(form.inputs, param.name)
  }

  lemma CollectedOpen(site: Site, log: seq<Visit>)
    requires log != [] ==> site.seed.host.Some?
    ensures CollectedFromOpen(site, log, Collect(FormsSeen(site, log)))
  {
    hide FormOnOpenPage, Collect, FormsSeen, FormKey, LocationOf, Names;
    var forms := FormsSeen(site, log);
    var c := Collect(forms);
    FormsExact(forms);
    ParamsExact(forms);
    forall form
      ensures form in forms <==> FormOnOpenPage(site, log, form)
    {
      FormsSeenOnOpen(site, log, form);
    }
    forall i | 0 <= i < |c.params|
      ensures ParamOnOpenPage(site, log, c.params[i])
    {
      assert SomeFormNames(c.forms, c.params[i].name, c.params[i].location);
      var k :| 0 <= k < |c.forms| && LocationOf(c.forms[k]) == c.params[i].location
               && Names(c.forms[k].inputs, c.params[i].name);
      assert c.forms[k] in c.forms;
    }
  }

  /** An emitted URL is linked to by an open page above the depth limit, on the seed's host, and allowed. */
  ghost predicate LinkedFromOpen(site: Site, log: seq<Visit>, u: Url) {
    && HostAndRobotsAllow(site, u)
    && site.baseline.Some?
    && exists j :: 0 <= j < |log| && OpenWithLink(site, log[j], Some(u))
  }

  lemma DiscoveredFromOpen(site: Site, f: Frontier, log: seq<Visit>, u: Url)
    requires Finished(site, f, log) && site.seed.host.Some? && u in f.discovered
    ensures LinkedFromOpen(site, log, u)
  {
    hide Canonical, Site.Links, Site.Eligible, Open, LogOk, AllRecorded, QueueOk, NoneLost, HostAndRobotsAllow;
    EligibleIs(site, u);
    var k :| 0 <= k < |f.discovered| && f.discovered[k] == u;
    assert FoundOn(site, log, u);
    var j :| 0 <= j < |log| && Some(u) in site.Links(log[j]);
    LinksAre(site, log[j], Some(u));
  }

  /** With budget to spare: an allowed URL that an open page above the depth limit links to has been visited. */
  lemma OpenLinksVisited(site: Site, f: Frontier, log: seq<Visit>, j: nat, u: Url)
    requires Finished(site, f, log) && |log| < site.maxPages && site.seed.host.Some?
    requires site.baseline.Some? && j < |log| && OpenWithLink(site, log[j], Some(u)) && HostAndRobotsAllow(site, u)
    ensures exists i :: 0 <= i < |log| && Canonical(log[i].url) == Canonical(u)
  {
    hide Canonical, Site.Links, Site.Eligible, Open, Finished, HostAndRobotsAllow;
    CrawlIsClosed(site, f, log);
    EligibleIs(site, u);
    LinksAre(site, log[j], Some(u));
    assert Canonical(u) in Canonicals(log);
  }

  /** Two URLs are the same to the crawl if their texts are, up to the first '#'. */
  lemma {:induction false} CanonicalIs(u: Url)
    ensures var c := Canonical(u);
            c <= u.text && '#' !in c && (|c| < |u.text| ==> u.text[|c|] == '#')
  {
    UpToIs('#', u.text);
  }

  lemma {:induction false} UpToIs(c: char, s: string)
    ensures var r := UpTo(c, s);
            r <= s && c !in r && (|r| < |s| ==> s[|r|] == c)
  {
    if s != "" && s[0] != c {
      UpToIs(c, s[1..]);
    }
  }

  /** Statuses from pages that were reached; emitted URLs, forms and parameters from open pages. */
  ghost predicate GivenByOpenPages(site: Site, log: seq<Visit>, results: seq<Emitted>, c: Collected, seedStatus: nat) {
    && (forall k :: 0 <= k < |results| ==> StatusFromReached(site, log, results[k], if k == 0 then seedStatus else 0))
    && (forall k :: 1 <= k < |results| ==> LinkedFromOpen(site, log, results[k].url))
    && CollectedFromOpen(site, log, c)
  }

  lemma EachGivenByOpenPages(
    site: Site, f: Frontier, log: seq<Visit>, results: seq<Emitted>, c: Collected, seedStatus: nat)
    requires Finished(site, f, log) && (log == [] <==> site.maxPages == 0 || site.seed.host.None?)
    requires forall k :: 1 <= k < |results| ==> results[k].url in f.discovered
    requires forall k :: 0 <= k < |results| ==> StatusMatches(site, log, results[k], if k == 0 then seedStatus else 0)
    requires c == Collect(FormsSeen(site, log))
    ensures GivenByOpenPages(site, log, results, c, seedStatus)
  {
    hide Finished, StatusMatches, StatusFromReached, LinkedFromOpen, CollectedFromOpen, FormsSeen, Collect, LogOk;
    FinishedLog(site, f, log);
    forall k | 0 <= k < |results|
      ensures StatusFromReached(site, log, results[k], if k == 0 then seedStatus else 0)
    {
      StatusReached(site, log, results[k], if k == 0 then seedStatus else 0);
    }
    forall k | 1 <= k < |results|
      ensures LinkedFromOpen(site, log, results[k].url)
    {
      DiscoveredFromOpen(site, f, log, results[k].url);
    }
    CollectedOpen(site, log);
  }

  /** A whole crawl: the seed and the discovered URLs, each under a canonical URL of its own, on the
      seed's host and (the seed aside) allowed, with their statuses; and what the accepted pages hold. */
  method CrawlAsset(site: Site, seedStatus: nat)
    returns (results: seq<Emitted>, collected: Collected, ghost f: Frontier, ghost log: seq<Visit>)
    ensures Finished(site, f, log)
    ensures log == [] <==> site.maxPages == 0 || site.seed.host.None?
    ensures |results| == 1 + |f.discovered| && results[0].url == site.seed
    ensures forall k :: 1 <= k < |results| ==> results[k].url == f.discovered[k - 1] && site.Eligible(results[k].url)
    ensures forall i, k :: 0 <= i < k < |results| ==> Canonical(results[i].url) != Canonical(results[k].url)
    ensures forall k :: 0 <= k < |results| ==> StatusMatches(site, log, results[k], if k == 0 then seedStatus else 0)
    ensures site.baseline.None? ==> |results| == 1
    ensures collected == Collect(FormsSeen(site, log))
    ensures GivenByOpenPages(site, log, results, collected, seedStatus)
  {
    hide Canonical, Collect, FormsSeen, Finished, StatusMatches, StatusesOk, GivenByOpenPages;
    var frontier, table, urlStatus;
    frontier, table, urlStatus, log := Explore(site);
    f := frontier;
    collected := table.Contents();
    var seed := Emitted(site.seed, if Canonical(site.seed) in urlStatus then urlStatus[Canonical(site.seed)] else seedStatus);
    var rest := EmitDiscovered(site, frontier, urlStatus, log);
    results := [seed] + rest;
    CrawlIsSafe(site, f, log);
    forall k | 0 <= k < |results|
      ensures StatusMatches(site, log, results[k], if k == 0 then seedStatus else 0)
    {
      StatusFromMap(site, urlStatus, log, results[k].url, if k == 0 then seedStatus else 0);
    }
    EachGivenByOpenPages(site, f, log, results, collected, seedStatus);
  }

  lemma FinishedLog(site: Site, f: Frontier, log: seq<Visit>)
    requires Finished(site, f, log)
    ensures LogOk(site, log) && (log == [] ==> f.discovered == [])
  {
  }

  lemma SameTextSameCanonical(u: Url, w: Url)
    ensures u.text == w.text ==> Canonical(u) == Canonical(w)
  {
  }
}
