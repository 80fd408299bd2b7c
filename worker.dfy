/** The worker loop `scrape_pages`: for each assigned listing page, for each book on it,
    visit the detail page and append one record, while a counter cell enforces the cap and
    a pages-done cell drives the progress file. The browser is replaced by a `Site` value,
    the counter and pages-done cells by their contents going in and coming out, and the
    progress file by the sequence of percentages written to it. */
module Worker {
  import opened Common
  import opened Records
  import Text

  /** What navigating to a listing page yields: the `href` of each `article.product_pod`'s
      `.image_container a` (`None` when the element is missing or has no `href`, so that
      the `.replace` call raises), or a navigation that raises. */
  datatype Listing = Unreachable | Listed(links: seq<Option<string>>)

  /** The site as the two browser tabs see it: the listing behind a page URL, and the
      detail page behind a detail URL (`None` when `goto` raises). */
  datatype Site = Site(listing: string -> Listing, detail: string -> Option<Detail>)

  /** The loop's view of the site: what navigating to a listing page yields, and what
      visiting one book link yields (its record, or `None` when that raises). */
  datatype Browser = Browser(listing: string -> Listing, visit: Option<string> -> Option<Record>)

  /** The parameters of `scrape_pages` other than the URLs and the two cells. The progress
      file only matters through its truthiness; `totalPages` 0 stands for `None` too. */
  datatype Config = Config(maxBooks: int, progressFile: Option<string>, totalPages: nat, progressStep: nat)

  /** The state the loop carries: `all_books`, the counter cell (`None` when no cell is
      passed), the pages-done cell, the percentages written to the progress file so far,
      and whether an exception escaped (which ends the worker). */
  datatype Run = Run(
    books: seq<Record>,
    count: Option<int>,
    pagesDone: Option<nat>,
    writes: seq<nat>,
    failed: bool)

  /** `global_count and global_count[0] >= max_books`. */
  predicate CapReached(count: Option<int>, maxBooks: int)
  {
    count.Some? && count.value >= maxBooks
  }

  /** `progress_file and total_pages and pages_done is not None`. */
  predicate Reporting(cfg: Config, pagesDone: Option<nat>)
  {
    cfg.progressFile.Some? && cfg.progressFile.value != "" && cfg.totalPages != 0 && pagesDone.Some?
  }

  /** `int(100 * pages_done[0] / total_pages)`. */
  function Percent(done: nat, total: nat): nat
    requires total > 0
  {
    (100 * done) / total
  }

  /** `pages_done[0] % progress_step == 0 or pages_done[0] == total_pages`. */
  predicate SnapshotDue(done: nat, step: nat, total: nat)
    requires step > 0
  {
    done % step == 0 || done == total
  }

  function Bump(count: Option<int>): Option<int>
  {
    match count
    case None => None
    case Some(c) => Some(c + 1)
  }

  function Advance(count: Option<int>, n: nat): Option<int>
  {
    match count
    case None => None
    case Some(c) => Some(c + n)
  }

  function LinksOf(b: Browser, url: string): seq<Option<string>>
  {
    match b.listing(url)
    case Listed(links) => links
    case Unreachable => []
  }

  /** The record one book link yields, or `None` when reading its link or opening its
      detail page raises. */
  function ItemRecord(site: Site, link: Option<string>): Option<Record>
  {
    match link
    case None => None
    case Some(href) =>
      var url := DetailUrl(href);
      match site.detail(url)
      case None => None
      case Some(d) => Some(BuildRecord(d, url))
  }

  /** The browser the worker drives: its listing tab and, for each book link, the detail
      tab's record. */
  function BrowserOf(site: Site): Browser
  {
    Browser(site.listing, link => ItemRecord(site, link))
  }

  /** The inner `for book in books` loop, from state `run`. */
  function ScrapeItems(b: Browser, cfg: Config, links: seq<Option<string>>, run: Run): Run
    decreases |links|
  {
    if links == [] || run.failed || CapReached(run.count, cfg.maxBooks) then run
    else
      match b.visit(links[0])
      case None => run.(failed := true)
      case Some(rec) =>
        ScrapeItems(b, cfg, links[1..], run.(books := run.books + [rec], count := Bump(run.count)))
  }

  /** The progress block run after each page entered: `pages_done` goes up by one and a
      percentage is written when a snapshot is due (a zero step raises on `%`). */
  function FinishPage(cfg: Config, run: Run): Run
  {
    if !Reporting(cfg, run.pagesDone) then run
    else
      var done := run.pagesDone.value + 1;
      if cfg.progressStep == 0 then run.(pagesDone := Some(done), failed := true)
      else if SnapshotDue(done, cfg.progressStep, cfg.totalPages) then
        run.(pagesDone := Some(done), writes := run.writes + [Percent(done, cfg.totalPages)])
      else run.(pagesDone := Some(done))
  }

  /** The outer `for page_url in page_urls` loop, from state `run`. */
  function ScrapeFrom(b: Browser, cfg: Config, urls: seq<string>, run: Run): Run
    decreases |urls|
  {
    if urls == [] || run.failed || CapReached(run.count, cfg.maxBooks) then run
    else
      match b.listing(urls[0])
      case Unreachable => run.(failed := true)
      case Listed(links) =>
        var afterItems := ScrapeItems(b, cfg, links, run);
        if afterItems.failed then afterItems
        else ScrapeFrom(b, cfg, urls[1..], FinishPage(cfg, afterItems))
  }

  /** One call of `scrape_pages(urls, ...)` with the cells holding `count` and `pagesDone`. */
  function Scrape(b: Browser, cfg: Config, urls: seq<string>, count: Option<int>, pagesDone: Option<nat>): Run
  {
    ScrapeFrom(b, cfg, urls, Run([], count, pagesDone, [], false))
  }

  /** The row loop inside the `try`: `info[key] = value` row by row until a row lacks a
      cell. */
  method ReadAttributes(rows: seq<Row>) returns (info: map<string, string>)
    ensures info == Attributes(rows, map[])
  {
    info := map[];
    var k := 0;
    while k < |rows|
      invariant 0 <= k <= |rows|
      invariant Attributes(rows[k..], info) == Attributes(rows, map[])
    {
      var row := rows[k];
      if row.key.None? || row.value.None? {
        break;
      }
      info := info[row.key.value := row.value.value];
      k := k + 1;
    }
  }

  /** `ScrapeItems` touches neither the pages-done cell nor the progress history. */
  lemma {:induction false} ScrapeItemsFrame(b: Browser, cfg: Config, links: seq<Option<string>>, run: Run)
    ensures ScrapeItems(b, cfg, links, run)
      == ScrapeItems(b, cfg, links, run.(pagesDone := None, writes := [])).(pagesDone := run.pagesDone, writes := run.writes)
    decreases |links|
  {
    if links != [] && !run.failed && !CapReached(run.count, cfg.maxBooks) {
      match b.visit(links[0])
      case None =>
      case Some(rec) =>
        ScrapeItemsFrame(b, cfg, links[1..], run.(books := run.books + [rec], count := Bump(run.count)));
    }
  }

  /** The body of `for book in books` once the cap check has passed: read the link, rewrite
      it into the detail URL, open the detail page and build the record. */
  method ScrapeBook(site: Site, link: Option<string>) returns (rec: Option<Record>)
    ensures rec == ItemRecord(site, link)
  {
    if link.None? {
      return None;
    }
    var url := DetailUrl(link.value);
    var detail := site.detail(url);
    if detail.None? {
      return None;
    }
    var d := detail.value;
    var info := ReadAttributes(d.rows);
    var availability := if d.availability.Some? then Text.Strip(d.availability.value) else "";
    rec := Some(Record(
      OrEmpty(d.title), OrEmpty(d.price), availability, OrEmpty(d.description),
      Get(info, UpcKey), Get(info, ProductTypeKey), Get(info, PriceExclTaxKey),
      Get(info, PriceInclTaxKey), Get(info, TaxKey), Get(info, NumReviewsKey), url));
  }

  /** The inner loop over the books of one listing page, appending to `all_books` and
      bumping the counter cell. */
  method ScrapeListing(site: Site, cfg: Config, links: seq<Option<string>>, books0: seq<Record>, count0: Option<int>)
    returns (books: seq<Record>, count: Option<int>, failed: bool)
    ensures Run(books, count, None, [], failed) == ScrapeItems(BrowserOf(site), cfg, links, Run(books0, count0, None, [], false))
  {
    books, count, failed := books0, count0, false;
    var j := 0;
    while j < |links|
      invariant 0 <= j <= |links|
      invariant ScrapeItems(BrowserOf(site), cfg, links[j..], Run(books, count, None, [], false))
        == ScrapeItems(BrowserOf(site), cfg, links, Run(books0, count0, None, [], false))
    {
      if count.Some? && count.value >= cfg.maxBooks {
        break;
      }
      var rec := ScrapeBook(site, links[j]);
      if rec.None? {
        failed := true;
        return;
      }
      assert links[j..][1..] == links[j + 1..];
      books := books + [rec.value];
      if count.Some? {
        count := Some(count.value + 1);
      }
      j := j + 1;
    }
  }

  /** One page of the outer loop once the cap check has passed and the listing loaded: the
      book loop runs, and unless it raised, the progress block and the remaining pages
      follow. */
  lemma {:induction false} ScrapeFromPage(b: Browser, cfg: Config, urls: seq<string>, run: Run)
    requires urls != [] && !run.failed && !CapReached(run.count, cfg.maxBooks)
    requires b.listing(urls[0]).Listed?
    ensures var afterItems := ScrapeItems(b, cfg, b.listing(urls[0]).links, run);
      ScrapeFrom(b, cfg, urls, run)
        == if afterItems.failed then afterItems else ScrapeFrom(b, cfg, urls[1..], FinishPage(cfg, afterItems))
  {
  }

  /** The progress block after a page: bump the pages-done cell and append a percentage
      when a snapshot is due; `failed` when `%` raises on a zero step. */
  method ReportPage(cfg: Config, ghost run: Run, done0: Option<nat>, writes0: seq<nat>)
    returns (done: Option<nat>, writes: seq<nat>, failed: bool)
    requires run.pagesDone == done0 && run.writes == writes0 && !run.failed
    ensures FinishPage(cfg, run) == run.(pagesDone := done, writes := writes, failed := failed)
  {
    done, writes, failed := done0, writes0, false;
    if cfg.progressFile.Some? && cfg.progressFile.value != "" && cfg.totalPages != 0 && done.Some? {
      var d := done.value + 1;
      done := Some(d);
      if cfg.progressStep == 0 {
        failed := true;
        return;
      }
      if d % cfg.progressStep == 0 || d == cfg.totalPages {
        writes := writes + [(100 * d) / cfg.totalPages];
      }
    }
  }

  /** `scrape_pages`: returns `all_books` and the final contents of the two cells and of the
      progress file's history; `failed` is set when an exception escapes. */
  method ScrapePages(site: Site, pageUrls: seq<string>, cfg: Config, globalCount: Option<int>, pagesDone: Option<nat>)
    returns (books: seq<Record>, count: Option<int>, done: Option<nat>, writes: seq<nat>, failed: bool)
    ensures Run(books, count, done, writes, failed) == Scrape(BrowserOf(site), cfg, pageUrls, globalCount, pagesDone)
  {
    ghost var b := BrowserOf(site);
    books, count, done, writes, failed := [], globalCount, pagesDone, [], false;
    var i := 0;
    while i < |pageUrls|
      invariant 0 <= i <= |pageUrls|
      invariant ScrapeFrom(b, cfg, pageUrls[i..], Run(books, count, done, writes, false))
        == Scrape(b, cfg, pageUrls, globalCount, pagesDone)
    {
      if count.Some? && count.value >= cfg.maxBooks {
        break;
      }
      ghost var rest := pageUrls[i..];
      ghost var before := Run(books, count, done, writes, false);
      assert rest[0] == pageUrls[i] && rest[1..] == pageUrls[i + 1..];
      var listing := site.listing(pageUrls[i]);
      if listing.Unreachable? {
        failed := true;
        return;
      }
      books, count, failed := ScrapeListing(site, cfg, listing.links, books, count);
      ghost var afterItems := Run(books, count, done, writes, failed);
      assert afterItems == ScrapeItems(b, cfg, listing.links, before) by {
        ScrapeItemsFrame(b, cfg, listing.links, before);
      }
      assert ScrapeFrom(b, cfg, rest, before)
        == if failed then afterItems else ScrapeFrom(b, cfg, rest[1..], FinishPage(cfg, afterItems)) by {
        ScrapeFromPage(b, cfg, rest, before);
      }
      if failed {
        return;
      }
      done, writes, failed := ReportPage(cfg, afterItems, done, writes);
      if failed {
        return;
      }
      i := i + 1;
    }
  }
}
