/**
 * The crawl itself (`EmailScraper`): its state, the set-up done by
 * `scrape_website`, one sequential step of `worker`, and the summary
 * `scrape_website` returns.
 *
 * The source runs up to five workers concurrently over one queue; the model
 * runs one step at a time. Fetching, parsing and extraction are handed in
 * through a Web value.
 */
module Crawler {
  import opened Wrappers
  import EmailFilter
  import Extract
  import Links

  /** What one worker step did with the URL it took from the queue. */
  datatype StepOutcome =
    | Idle                 // the queue was empty
    | AlreadyVisited
    | TooDeep
    | FetchFailed          // no content, or empty content
    | Raised               // parsing the page raised; the exception handler only drops the item
    | EmailLimitReached    // emails were added, links were not followed, the page is not marked visited
    | Scanned(pushed: nat) // emails added, links queued, page marked visited

  /** The network and the HTML parser as the crawler sees them; `parse` is `None` when BeautifulSoup raises. */
  datatype Web = Web(fetch: string -> Option<Extract.Response>, parse: string -> Option<Extract.Page>, env: Extract.Env)

  /** The limits and filters fixed when a crawl starts. */
  datatype Config = Config(maxPages: int, maxEmails: int, maxDepth: int, excludeDomains: set<string>, baseDomain: string)

  /** What a crawl changes as it goes. */
  datatype Crawl = Crawl(queue: seq<Links.QueueItem>, visited: set<string>, emails: set<string>)

  /** The addresses `extract_emails_from_page` returns for the page. */
  ghost function PageEmails(page: Extract.Page, url: string, env: Extract.Env): set<string> {
    EmailFilter.Filtered(Extract.PageCandidates(page, url, env))
  }

  /** The links the collection loop gathers from the page. */
  function PageLinks(page: Extract.Page, url: string, join: (string, string) -> string): seq<string> {
    Links.Reverse(Links.ContactUrls(page.tags, url, join)) + Links.OtherUrls(page.tags, url, join)
  }

  /** One step of `worker` on the state of a crawl: take the head of the queue and process it. */
  ghost function Next(c: Crawl, cfg: Config, web: Web): (Crawl, StepOutcome) {
    if c.queue == [] then (c, Idle)
    else Process(c.queue[0], c.(queue := c.queue[1..]), cfg, web)
  }

  /** What the worker does with `item` once it is off the queue `c.queue`. */
  ghost function Process(item: Links.QueueItem, c: Crawl, cfg: Config, web: Web): (Crawl, StepOutcome) {
    if item.url in c.visited then (c, AlreadyVisited)
    else if item.depth > cfg.maxDepth then (c, TooDeep)
    else
      match Extract.PageContent(web.fetch(item.url))
      case None => (c, FetchFailed)
      case Some(content) =>
        if content == "" then (c, FetchFailed)
        else
          match web.parse(content)
          case None => (c, Raised)
          case Some(page) => Scan(item, c, cfg, PageEmails(page, item.url, web.env), PageLinks(page, item.url, web.env.join))
  }

  /** The scan of a fetched, non-empty page with addresses `pageEmails` and links `links`: merge the addresses, then, below the email limit, queue the admitted links and mark the page visited. */
  ghost function Scan(item: Links.QueueItem, c: Crawl, cfg: Config, pageEmails: set<string>, links: seq<string>): (Crawl, StepOutcome) {
    var emails := c.emails + pageEmails;
    if |emails| >= cfg.maxEmails then (c.(emails := emails), EmailLimitReached)
    else
      var pushed := Links.PushedLinks(links, item.depth, |c.visited|, |emails|,
                                      cfg.maxPages, cfg.maxEmails, cfg.baseDomain, c.visited, cfg.excludeDomains);
      (Crawl(c.queue + pushed, c.visited + {item.url}, emails), Scanned(|pushed|))
  }

  /** Every item on the queue except the seed is on the start host and at most one level past the depth limit. */
  predicate QueueWellFormed(queue: seq<Links.QueueItem>, cfg: Config) {
    forall k :: 0 <= k < |queue| ==>
      queue[k].depth >= 0 &&
      (queue[k].depth > 0 ==> Links.Netloc(queue[k].url) == cfg.baseDomain && queue[k].depth <= cfg.maxDepth + 1)
  }

  /** Every collected address passed the filter and is in normal form. */
  ghost predicate EmailsFiltered(emails: set<string>) {
    forall e :: e in emails ==> EmailFilter.Accept(e) && EmailFilter.Normalize(e) == e
  }

  ghost predicate Inv(c: Crawl, cfg: Config) {
    QueueWellFormed(c.queue, cfg) && EmailsFiltered(c.emails)
  }

  /** The pages a step adds to the queue keep it well formed. */
  lemma PushKeepsQueue(rest: seq<Links.QueueItem>, pushed: seq<Links.QueueItem>, depth: int, cfg: Config)
    requires QueueWellFormed(rest, cfg)
    requires 0 <= depth <= cfg.maxDepth
    requires forall k :: 0 <= k < |pushed| ==>
      pushed[k].depth == depth + 1 && Links.Netloc(pushed[k].url) == cfg.baseDomain
    ensures QueueWellFormed(rest + pushed, cfg)
  {
    forall k | 0 <= k < |rest + pushed|
      ensures (rest + pushed)[k].depth >= 0
      ensures (rest + pushed)[k].depth > 0 ==>
        Links.Netloc((rest + pushed)[k].url) == cfg.baseDomain && (rest + pushed)[k].depth <= cfg.maxDepth + 1
    {
      if k >= |rest| {
        assert (rest + pushed)[k] == pushed[k - |rest|];
      }
    }
  }

  /** The addresses of a page are filtered, so adding them keeps the collection filtered. */
  lemma AddPageEmails(emails: set<string>, page: Extract.Page, url: string, env: Extract.Env)
    requires EmailsFiltered(emails)
    ensures EmailsFiltered(emails + PageEmails(page, url, env))
  {
    forall e | e in PageEmails(page, url, env) ensures EmailFilter.Accept(e) && EmailFilter.Normalize(e) == e {
      EmailFilter.FilteredSound(Extract.PageCandidates(page, url, env), e);
    }
  }

  /** Dropping the head of a well-formed queue leaves it well formed. */
  lemma TailWellFormed(queue: seq<Links.QueueItem>, cfg: Config)
    requires queue != [] && QueueWellFormed(queue, cfg)
    ensures QueueWellFormed(queue[1..], cfg) && queue[0].depth >= 0
  {
    var rest := queue[1..];
    forall k | 0 <= k < |rest| ensures rest[k] == queue[k + 1] { }
  }

  /** Scanning a page within the depth limit, with filtered addresses, keeps the queue well formed and the addresses filtered. */
  lemma ScanKeepsInv(item: Links.QueueItem, c: Crawl, cfg: Config, pageEmails: set<string>, links: seq<string>)
    requires Inv(c, cfg) && 0 <= item.depth <= cfg.maxDepth && EmailsFiltered(pageEmails)
    ensures Inv(Scan(item, c, cfg, pageEmails, links).0, cfg)
  {
    var emails := c.emails + pageEmails;
    if |emails| < cfg.maxEmails {
      Links.PushedLinksSound(links, item.depth, |c.visited|, |emails|,
                             cfg.maxPages, cfg.maxEmails, cfg.baseDomain, c.visited, cfg.excludeDomains);
      var pushed := Links.PushedLinks(links, item.depth, |c.visited|, |emails|,
                                      cfg.maxPages, cfg.maxEmails, cfg.baseDomain, c.visited, cfg.excludeDomains);
      PushKeepsQueue(c.queue, pushed, item.depth, cfg);
    }
  }

  lemma ProcessKeepsInv(item: Links.QueueItem, c: Crawl, cfg: Config, web: Web)
    requires Inv(c, cfg) && item.depth >= 0
    ensures Inv(Process(item, c, cfg, web).0, cfg)
  {
    if item.url !in c.visited && item.depth <= cfg.maxDepth {
      match Extract.PageContent(web.fetch(item.url))
      case None =>
      case Some(content) =>
        if content != "" {
          match web.parse(content)
          case None =>
          case Some(page) =>
            var pageEmails := PageEmails(page, item.url, web.env);
            AddPageEmails({}, page, item.url, web.env);
            assert {} + pageEmails == pageEmails;
            ScanKeepsInv(item, c, cfg, pageEmails, PageLinks(page, item.url, web.env.join));
        }
    }
  }

  /** A worker step keeps the queue well formed and the collected addresses filtered. */
  lemma NextKeepsInv(c: Crawl, cfg: Config, web: Web)
    requires Inv(c, cfg)
    ensures Inv(Next(c, cfg, web).0, cfg)
  {
    if c.queue != [] {
      TailWellFormed(c.queue, cfg);
      ProcessKeepsInv(c.queue[0], c.(queue := c.queue[1..]), cfg, web);
    }
  }

  /** Scanning only appends to the queue, only adds addresses, and marks the page visited exactly when it queues links. */
  lemma ScanShape(item: Links.QueueItem, c: Crawl, cfg: Config, pageEmails: set<string>, links: seq<string>)
    ensures var (d, outcome) := Scan(item, c, cfg, pageEmails, links);
      && |c.queue| <= |d.queue| && d.queue[..|c.queue|] == c.queue
      && c.emails <= d.emails
      && (outcome.Scanned? ==> d.visited == c.visited + {item.url})
      && (!outcome.Scanned? ==> d.visited == c.visited)
  {
    var (d, outcome) := Scan(item, c, cfg, pageEmails, links);
    if outcome.Scanned? {
      assert (c.queue + d.queue[|c.queue|..])[..|c.queue|] == c.queue;
    }
  }

  /** Processing an item leaves the visited set alone unless the page was scanned, and never loses queue entries or addresses. */
  lemma ProcessShape(item: Links.QueueItem, c: Crawl, cfg: Config, web: Web)
    ensures var (d, outcome) := Process(item, c, cfg, web);
      && |c.queue| <= |d.queue| && d.queue[..|c.queue|] == c.queue
      && c.emails <= d.emails
      && (outcome.Scanned? ==> d.visited == c.visited + {item.url})
      && (!outcome.Scanned? ==> d.visited == c.visited)
  {
    if item.url !in c.visited && item.depth <= cfg.maxDepth {
      match Extract.PageContent(web.fetch(item.url))
      case None =>
      case Some(content) =>
        if content != "" {
          match web.parse(content)
          case None =>
          case Some(page) =>
            ScanShape(item, c, cfg, PageEmails(page, item.url, web.env), PageLinks(page, item.url, web.env.join));
        }
    }
  }

  /** A step takes the head of the queue; emails only grow; at most the taken URL becomes visited, and only when it was scanned. */
  lemma NextShape(c: Crawl, cfg: Config, web: Web)
    requires c.queue != []
    ensures var (d, outcome) := Next(c, cfg, web);
      && |c.queue| - 1 <= |d.queue| && d.queue[..|c.queue| - 1] == c.queue[1..]
      && c.emails <= d.emails
      && (outcome.Scanned? ==> d.visited == c.visited + {c.queue[0].url})
      && (!outcome.Scanned? ==> d.visited == c.visited)
  {
    ProcessShape(c.queue[0], c.(queue := c.queue[1..]), cfg, web);
  }

  /** An entry already visited or deeper than the limit is dropped and nothing else changes. */
  lemma SkippedEntryOnlyPops(c: Crawl, cfg: Config, web: Web)
    requires c.queue != [] && (c.queue[0].url in c.visited || c.queue[0].depth > cfg.maxDepth)
    ensures Next(c, cfg, web).0 == c.(queue := c.queue[1..])
    ensures Next(c, cfg, web).1 == if c.queue[0].url in c.visited then AlreadyVisited else TooDeep
  {
  }

  /** A page is marked visited only after a fetch with non-empty content that left the collection below the email limit. */
  lemma ScannedOnlyBelowEmailLimit(c: Crawl, cfg: Config, web: Web)
    requires c.queue != [] && Next(c, cfg, web).1.Scanned?
    ensures var item := c.queue[0];
      && item.url !in c.visited && item.depth <= cfg.maxDepth
      && var content := Extract.PageContent(web.fetch(item.url));
         content.Some? && content.value != "" && web.parse(content.value).Some?
         && |Next(c, cfg, web).0.emails| < cfg.maxEmails
  {
  }

  /** A page that raises the collection to the email limit is not marked visited and queues nothing. */
  lemma EmailLimitLeavesPageUnvisited(c: Crawl, cfg: Config, web: Web)
    requires c.queue != [] && c.queue[0].url !in c.visited
    requires Next(c, cfg, web).1 == EmailLimitReached
    ensures c.queue[0].url !in Next(c, cfg, web).0.visited
    ensures Next(c, cfg, web).0.queue == c.queue[1..]
  {
  }

  /** At the page limit a scan queues nothing. */
  lemma ScanAtPageLimit(item: Links.QueueItem, c: Crawl, cfg: Config, pageEmails: set<string>, links: seq<string>)
    requires |c.visited| >= cfg.maxPages
    ensures Scan(item, c, cfg, pageEmails, links).0.queue == c.queue
  {
    assert c.queue + [] == c.queue;
  }

  /** Once as many pages are visited as the limit allows, steps only drain the queue. */
  lemma PageLimitDrainsQueue(c: Crawl, cfg: Config, web: Web)
    requires c.queue != [] && |c.visited| >= cfg.maxPages
    ensures Next(c, cfg, web).0.queue == c.queue[1..]
  {
    var item := c.queue[0];
    if item.url !in c.visited && item.depth <= cfg.maxDepth {
      match Extract.PageContent(web.fetch(item.url))
      case None =>
      case Some(content) =>
        if content != "" {
          match web.parse(content)
          case None =>
          case Some(page) =>
            ScanAtPageLimit(item, c.(queue := c.queue[1..]), cfg,
                            PageEmails(page, item.url, web.env), PageLinks(page, item.url, web.env.join));
        }
    }
  }

  /** A page whose body is empty is treated like a failed fetch. */
  lemma EmptyContentFails(c: Crawl, cfg: Config, web: Web)
    requires c.queue != [] && c.queue[0].url !in c.visited && c.queue[0].depth <= cfg.maxDepth
    requires Extract.PageContent(web.fetch(c.queue[0].url)) == Some("")
    ensures Next(c, cfg, web) == (c.(queue := c.queue[1..]), FetchFailed)
  {
  }

  /** A page that cannot be parsed is dropped by the exception handler: nothing is collected, queued or marked visited. */
  lemma ParseFailureOnlyPops(c: Crawl, cfg: Config, web: Web)
    requires c.queue != [] && c.queue[0].url !in c.visited && c.queue[0].depth <= cfg.maxDepth
    requires var content := Extract.PageContent(web.fetch(c.queue[0].url));
      content.Some? && content.value != "" && web.parse(content.value).None?
    ensures Next(c, cfg, web) == (c.(queue := c.queue[1..]), Raised)
  {
  }

  /** The result `scrape_website` returns. */
  datatype ScrapeResult = ScrapeResult(url: string, emails: seq<string>, pagesScanned: nat, emailsFound: int, error: Option<string>)

  function Min(a: int, b: int): int {
    if a <= b then a else b
  }

  /** The length of `xs[:stop]` for a list of `len` elements, negative stops counting from the end. */
  function SliceLength(len: nat, stop: int): (n: nat)
    ensures n <= len
    ensures stop >= 0 ==> n == Min(len, stop)
  {
    if stop >= 0 then Min(len, stop)
    else if len + stop >= 0 then len + stop
    else 0
  }

  predicate Distinct(xs: seq<string>) {
    forall j, k :: 0 <= j < k < |xs| ==> xs[j] != xs[k]
  }

  /** `list(s)`: the elements of a set, each once, in some order. */
  method ListOf(s: set<string>) returns (xs: seq<string>)
    ensures |xs| == |s| && Distinct(xs)
    ensures forall x :: x in xs <==> x in s
  {
    xs := [];
    var rest := s;
    while rest != {}
      invariant rest <= s
      invariant forall x :: x in s <==> x in rest || x in xs
      invariant forall x :: x in xs ==> x !in rest
      invariant |xs| + |rest| == |s|
      invariant Distinct(xs)
      decreases |rest|
    {
      var x :| x in rest;
      xs := xs + [x];
      rest := rest - {x};
    }
  }

  class Scraper {
    var queue: seq<Links.QueueItem>
    var visited: set<string>
    var emails: set<string>
    var maxPages: int
    var maxEmails: int
    var maxDepth: int
    var includePaths: set<string>   // stored, never consulted
    var excludeDomains: set<string>
    var baseDomain: string

    function State(): Crawl
      reads this`queue, this`visited, this`emails
    {
      Crawl(queue, visited, emails)
    }

    function Settings(): Config
      reads this`maxPages, this`maxEmails, this`maxDepth, this`excludeDomains, this`baseDomain
    {
      Config(maxPages, maxEmails, maxDepth, excludeDomains, baseDomain)
    }

    /** The limits, filters and start host keep their values. */
    predicate Unchanged(settings: Config, paths: set<string>)
      reads this
    {
      && maxPages == settings.maxPages && maxEmails == settings.maxEmails && maxDepth == settings.maxDepth
      && excludeDomains == settings.excludeDomains && baseDomain == settings.baseDomain
      && includePaths == paths
    }

    /** Every queued page past the seed is on the start host and within one level of the depth limit. */
    predicate Valid()
      reads this`queue, this`maxPages, this`maxEmails, this`maxDepth, this`excludeDomains, this`baseDomain
    {
      QueueWellFormed(queue, Settings())
    }

    /** `EmailScraper.__init__`: empty state and the default limits. */
    constructor ()
      ensures queue == [] && visited == {} && emails == {}
      ensures maxPages == 10 && maxEmails == 50 && maxDepth == 3
      ensures includePaths == {} && excludeDomains == {} && baseDomain == ""
      ensures Valid()
    {
      queue := [];
      visited := {};
      emails := {};
      maxPages := 10;
      maxEmails := 50;
      includePaths := {};
      excludeDomains := {};
      maxDepth := 3;
      baseDomain := "";
    }

    /** The set-up of `scrape_website`: fresh state, the limits, the start host and the seed at depth 0. */
    method Start(url: string, pages: int, emailLimit: int, includes: Option<seq<string>>,
                 excludes: Option<seq<string>>, depth: int)
      modifies this
      ensures visited == {} && emails == {}
      ensures maxPages == pages && maxEmails == emailLimit && maxDepth == depth
      ensures includePaths == (if includes.Some? then Extract.ToSet(includes.value) else {})
      ensures excludeDomains == (if excludes.Some? then Extract.ToSet(excludes.value) else {})
      ensures baseDomain == Links.Netloc(url)
      ensures queue == [Links.QueueItem(url, 0)]
      ensures Valid()
    {
      visited := {};
      emails := {};
      maxPages := pages;
      maxEmails := emailLimit;
      includePaths := if includes.Some? then Extract.ToSet(includes.value) else {};
      excludeDomains := if excludes.Some? then Extract.ToSet(excludes.value) else {};
      maxDepth := depth;
      baseDomain := Links.Netloc(url);
      queue := [Links.QueueItem(url, 0)];
    }

    /** One pass of the `worker` loop: take the head of the queue and process it. */
    method Step(web: Web) returns (outcome: StepOutcome)
      requires Valid()
      modifies this
      ensures (State(), outcome) == Next(old(State()), old(Settings()), web)
      ensures Unchanged(old(Settings()), old(includePaths))
      ensures Valid()
    {
      if queue == [] {
        return Idle;
      }
      TailWellFormed(queue, Settings());
      var item := queue[0];
      queue := queue[1..];
      outcome := ProcessItem(item, web);
    }

    /** The body of the `worker` loop for an item already taken off the queue. */
    method ProcessItem(item: Links.QueueItem, web: Web) returns (outcome: StepOutcome)
      requires Valid() && item.depth >= 0
      modifies `queue, `visited, `emails
      ensures (State(), outcome) == Process(item, old(State()), old(Settings()), web)
      ensures Valid()
    {
      if item.url in visited {
        return AlreadyVisited;
      }
      if item.depth > maxDepth {
        return TooDeep;
      }
      var content := Extract.PageContent(web.fetch(item.url));
      if content.None? || content.value == "" {
        return FetchFailed;
      }
      var parsed := web.parse(content.value);
      if parsed.None? {
        return Raised;
      }
      var pageEmails := Extract.ExtractEmailsFromPage(parsed.value, item.url, web.env);
      outcome := ScanPage(item, pageEmails, parsed.value, web.env.join);
    }

    /** Merge a page's addresses, then, below the email limit, queue its links and mark it visited. */
    method ScanPage(item: Links.QueueItem, pageEmails: set<string>, page: Extract.Page, join: (string, string) -> string)
      returns (outcome: StepOutcome)
      requires Valid() && 0 <= item.depth <= maxDepth
      modifies `queue, `visited, `emails
      ensures (Crawl(queue, visited, emails), outcome)
        == Scan(item, Crawl(old(queue), old(visited), old(emails)), Settings(), pageEmails, PageLinks(page, item.url, join))
      ensures Valid()
    {
      MergeEmails(pageEmails);
      if |emails| >= maxEmails {
        return EmailLimitReached;
      }
      var count := FollowLinks(item, page, join);
      outcome := Scanned(count);
    }

    /** Add the page's addresses to the collected ones; an empty set leaves them as they are. */
    method MergeEmails(pageEmails: set<string>)
      modifies `emails
      ensures emails == old(emails) + pageEmails
    {
      if pageEmails != {} {
        emails := emails + pageEmails;
      } else {
        assert emails + pageEmails == emails;
      }
    }

    /** Queue the admitted links of the page one level deeper, then mark the page visited. */
    method FollowLinks(item: Links.QueueItem, page: Extract.Page, join: (string, string) -> string) returns (count: nat)
      requires Valid() && 0 <= item.depth <= maxDepth
      modifies `queue, `visited
      ensures var pushed := Links.PushedLinks(PageLinks(page, item.url, join), item.depth, |old(visited)|, |emails|,
                                               maxPages, maxEmails, baseDomain, old(visited), excludeDomains);
        && queue == old(queue) + pushed && count == |pushed|
      ensures visited == old(visited) + {item.url}
      ensures Valid()
    {
      var pushed := PageQueueItems(item, page, join);
      PushKeepsQueue(queue, pushed, item.depth, Settings());
      queue := queue + pushed;
      visited := visited + {item.url};
      count := |pushed|;
    }

    /** The links of the page that the worker queues, one level deeper. */
    method PageQueueItems(item: Links.QueueItem, page: Extract.Page, join: (string, string) -> string)
      returns (pushed: seq<Links.QueueItem>)
      ensures pushed == Links.PushedLinks(PageLinks(page, item.url, join), item.depth, |visited|, |emails|,
                                          maxPages, maxEmails, baseDomain, visited, excludeDomains)
      ensures forall k :: 0 <= k < |pushed| ==>
        pushed[k].depth == item.depth + 1 && Links.Netloc(pushed[k].url) == baseDomain
    {
      var links := Links.CollectLinks(page.tags, item.url, join);
      pushed := Links.SelectLinks(links, item.depth, |visited|, |emails|, maxPages, maxEmails,
                                  baseDomain, visited, excludeDomains);
    }

    /** The dictionary `scrape_website` returns, with or without an error message. */
    method Summarize(url: string, error: Option<string>) returns (r: ScrapeResult)
      ensures r.url == url && r.error == error
      ensures r.pagesScanned == |visited|
      ensures r.emailsFound == Min(|emails|, maxEmails)
      ensures |r.emails| == SliceLength(|emails|, maxEmails)
      ensures Distinct(r.emails) && forall k :: 0 <= k < |r.emails| ==> r.emails[k] in emails
      ensures maxEmails >= 0 ==> |r.emails| == r.emailsFound
    {
      var all := ListOf(emails);
      var kept := all[..SliceLength(|all|, maxEmails)];
      assert forall k :: 0 <= k < |kept| ==> kept[k] == all[k];
      r := ScrapeResult(url, kept, |visited|, Min(|emails|, maxEmails), error);
    }
  }
}
