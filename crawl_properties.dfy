/** What the job as a whole promises: the planning arithmetic, the cut of the collected
    records to `max_books`, and, for a job that raises nothing, how many records it returns
    and in which order. */
module CrawlProperties {
  import opened Common
  import opened Pages
  import opened Records
  import opened Worker
  import opened WorkerProperties
  import opened Partition
  import opened Crawl

  /** `needed_pages` is the ceiling of `max_books / 20`: the fewest pages of 20 books that
      hold `max_books` books. */
  lemma NeededPagesLeast(maxBooks: nat)
    ensures BooksPerPage * NeededPages(maxBooks) >= maxBooks
    ensures NeededPages(maxBooks) == 0 || BooksPerPage * (NeededPages(maxBooks) - 1) < maxBooks
    ensures maxBooks >= 1 ==> NeededPages(maxBooks) >= 1
  {
    var p := NeededPages(maxBooks);
    assert maxBooks + 19 == 20 * p + (maxBooks + 19) % 20;
  }

  /** With `MAX_BOOKS = 100` the job keeps (at most) the first five listing pages. */
  lemma DefaultNeededPages()
    ensures NeededPages(MaxBooks) == 5
  {
  }

  /** The kept pages are the first `min(needed_pages, len(page_urls))` of the enumeration. */
  lemma PlannedPrefix(urls: seq<string>, maxBooks: nat)
    ensures |Planned(urls, maxBooks)| == Min(NeededPages(maxBooks), |urls|)
    ensures forall k :: 0 <= k < |Planned(urls, maxBooks)| ==> Planned(urls, maxBooks)[k] == urls[k]
  {
  }

  /** The worker count never exceeds 4, the reported CPUs or the pages; it is 0 exactly
      when there are no CPUs or no pages, which is when `Pool` refuses to start. */
  lemma NumWorkersBounds(cpus: nat, pages: nat)
    ensures NumWorkers(cpus, pages) <= MaxWorkers
    ensures NumWorkers(cpus, pages) <= cpus && NumWorkers(cpus, pages) <= pages
    ensures NumWorkers(cpus, pages) == 0 <==> cpus == 0 || pages == 0
  {
  }

  /** The plan gives every worker at least one page, since there are never more workers
      than pages; all kept pages are dealt out exactly once. */
  lemma PlanCoversPages(pager: Option<string>, cpus: nat, maxBooks: nat)
    requires PlanChunks(pager, cpus, maxBooks) != []
    ensures var chunks := PlanChunks(pager, cpus, maxBooks);
      && (forall i :: 0 <= i < |chunks| ==> chunks[i] != [])
      && multiset(Flatten(chunks)) == multiset(PlanPages(pager, maxBooks))
  {
    var pages := PlanPages(pager, maxBooks);
    var n := NumWorkers(cpus, |pages|);
    ChunksNonEmpty(pages, n);
    ChunkifyPermutation(pages, n);
  }

  /** The cut keeps `min(max_books, total)` records, takes them from the front of the
      concatenation, and keeps every chunk's records in their own order, behind those of
      the chunks before it. */
  lemma {:induction false} CollectShape(results: seq<seq<Record>>, maxBooks: nat)
    ensures |Collect(results, maxBooks)| == Min(maxBooks, TotalLength(results))
    ensures forall k :: 0 <= k < |Collect(results, maxBooks)| ==> Collect(results, maxBooks)[k] == Flatten(results)[k]
    ensures forall i, j :: 0 <= i < |results| && 0 <= j < |results[i]| && Offset(results, i, j) < maxBooks ==>
      Offset(results, i, j) < |Collect(results, maxBooks)|
      && Collect(results, maxBooks)[Offset(results, i, j)] == results[i][j]
  {
    FlattenLength(results);
    forall i, j | 0 <= i < |results| && 0 <= j < |results[i]| && Offset(results, i, j) < maxBooks
      ensures Offset(results, i, j) < |Collect(results, maxBooks)|
      ensures Collect(results, maxBooks)[Offset(results, i, j)] == results[i][j]
    {
      FlattenAt(results, i, j);
    }
  }

  /** The number of books on the pages of all chunks taken together. */
  function SumItems(b: Browser, chunks: seq<seq<string>>): nat
  {
    if chunks == [] then 0 else TotalItems(b, chunks[0]) + SumItems(b, chunks[1..])
  }

  lemma {:induction false} AllLinksAppend(b: Browser, urls: seq<string>, u: string)
    ensures AllLinks(b, urls + [u]) == AllLinks(b, urls) + LinksOf(b, u)
    decreases |urls|
  {
    if urls == [] {
      assert AllLinks(b, [u]) == LinksOf(b, u) + AllLinks(b, []);
    } else {
      assert (urls + [u])[1..] == urls[1..] + [u];
      AllLinksAppend(b, urls[1..], u);
    }
  }

  lemma {:induction false} SumItemsUpdate(b: Browser, chunks: seq<seq<string>>, r: nat, u: string)
    requires r < |chunks|
    ensures SumItems(b, chunks[r := chunks[r] + [u]]) == SumItems(b, chunks) + |LinksOf(b, u)|
    decreases |chunks|
  {
    var updated := chunks[r := chunks[r] + [u]];
    if r == 0 {
      assert updated[1..] == chunks[1..];
      AllLinksAppend(b, chunks[0], u);
    } else {
      assert updated[1..] == chunks[1..][r - 1 := chunks[r] + [u]];
      SumItemsUpdate(b, chunks[1..], r - 1, u);
    }
  }

  lemma {:induction false} SumItemsEmpty(b: Browser, chunks: seq<seq<string>>)
    requires forall i :: 0 <= i < |chunks| ==> chunks[i] == []
    ensures SumItems(b, chunks) == 0
    decreases |chunks|
  {
    if chunks != [] {
      SumItemsEmpty(b, chunks[1..]);
    }
  }

  /** The chunks hold as many books, all together, as the pages they were dealt from. */
  lemma {:induction false} SumItemsChunkify(b: Browser, pages: seq<string>, n: nat)
    requires n > 0
    ensures SumItems(b, Chunkify(pages, n)) == TotalItems(b, pages)
    decreases |pages|
  {
    if pages == [] {
      SumItemsEmpty(b, Chunkify(pages, n));
    } else {
      var init, u := pages[..|pages| - 1], pages[|pages| - 1];
      assert pages == init + [u];
      SumItemsChunkify(b, init, n);
      ChunkifyAppend(init, u, n);
      SumItemsUpdate(b, Chunkify(init, n), |init| % n, u);
      AllLinksAppend(b, init, u);
    }
  }

  /** The book links of each chunk's pages, chunk by chunk. */
  function ChunkLinks(b: Browser, chunks: seq<seq<string>>): (links: seq<seq<Option<string>>>)
    ensures |links| == |chunks|
  {
    seq(|chunks|, i requires 0 <= i < |chunks| => AllLinks(b, chunks[i]))
  }

  lemma {:induction false} ChunkLinksUpdate(b: Browser, chunks: seq<seq<string>>, r: nat, u: string)
    requires r < |chunks|
    ensures var links := ChunkLinks(b, chunks);
      ChunkLinks(b, chunks[r := chunks[r] + [u]]) == links[r := links[r] + LinksOf(b, u)]
  {
    AllLinksAppend(b, chunks[r], u);
  }

  /** Dealing the pages over the workers neither loses nor duplicates a book: the book
      links of all chunks together are those of the kept pages, each as often. */
  lemma {:induction false} ChunkLinksChunkify(b: Browser, pages: seq<string>, n: nat)
    requires n > 0
    ensures multiset(Flatten(ChunkLinks(b, Chunkify(pages, n)))) == multiset(AllLinks(b, pages))
    decreases |pages|
  {
    if pages == [] {
      EmptyChunks(ChunkLinks(b, Chunkify(pages, n)));
    } else {
      var init, u := pages[..|pages| - 1], pages[|pages| - 1];
      assert pages == init + [u];
      var c := Chunkify(init, n);
      var r := |init| % n;
      ChunkLinksChunkify(b, init, n);
      ChunkifyAppend(init, u, n);
      ChunkLinksUpdate(b, c, r, u);
      FlattenMultisetUpdate(ChunkLinks(b, c), r, LinksOf(b, u));
      AllLinksAppend(b, init, u);
    }
  }

  /** Capping every chunk at `max_books` and then the total at `max_books` gives the same
      count as capping the plain total. */
  lemma {:induction false} CappedTotal(b: Browser, results: seq<seq<Record>>, chunks: seq<seq<string>>, maxBooks: nat)
    requires |results| == |chunks|
    requires forall i :: 0 <= i < |chunks| ==> |results[i]| == Min(maxBooks, TotalItems(b, chunks[i]))
    ensures Min(maxBooks, TotalLength(results)) == Min(maxBooks, SumItems(b, chunks))
    decreases |chunks|
  {
    if chunks != [] {
      CappedTotal(b, results[1..], chunks[1..], maxBooks);
    }
  }

  /** Every worker of a job that raised nothing returned the records of the first
      `min(max_books, books in its chunk)` books of its chunk, in page-then-discovery order,
      because each starts from its own counter `[0]`. */
  lemma WorkerRecords(site: Site, cfg: Config, chunks: seq<seq<string>>, i: nat)
    requires i < |chunks| && cfg.maxBooks >= 0
    requires !RunWorkers(site, cfg, chunks)[i].failed
    ensures var books := RunWorkers(site, cfg, chunks)[i].books;
      var links := AllLinks(BrowserOf(site), chunks[i]);
      && |books| == Min(cfg.maxBooks, |links|)
      && (forall k :: 0 <= k < |books| ==> ItemRecord(site, links[k]) == Some(books[k]))
  {
    ScrapeCollects(BrowserOf(site), cfg, chunks[i], Some(0), Some(0));
  }

  /** The headline property of the job: when no exception escapes, it returns
      `min(max_books, books on the kept pages)` records, and the records of each worker
      appear in their own order, one chunk after the other, as far as the cut reaches. */
  lemma JobFinished(home: Home, site: Site, cpus: nat, maxBooks: nat)
    requires Job(home, site, cpus, maxBooks).Finished?
    ensures var pages := PlanPages(home.pager, maxBooks);
      |Job(home, site, cpus, maxBooks).books| == Min(maxBooks, TotalItems(BrowserOf(site), pages))
    ensures var pages := PlanPages(home.pager, maxBooks);
      var runs := RunWorkers(site, WorkerConfig(|pages|, maxBooks), PlanChunks(home.pager, cpus, maxBooks));
      var results := BooksOf(runs);
      var books := Job(home, site, cpus, maxBooks).books;
      forall i, j :: 0 <= i < |results| && 0 <= j < |results[i]| && Offset(results, i, j) < maxBooks ==>
        Offset(results, i, j) < |books| && books[Offset(results, i, j)] == results[i][j]
  {
    var pages := PlanPages(home.pager, maxBooks);
    var chunks := PlanChunks(home.pager, cpus, maxBooks);
    var cfg := WorkerConfig(|pages|, maxBooks);
    var runs := RunWorkers(site, cfg, chunks);
    var results := BooksOf(runs);
    assert chunks != [];
    forall i | 0 <= i < |chunks| ensures |results[i]| == Min(maxBooks, TotalItems(BrowserOf(site), chunks[i])) {
      WorkerRecords(site, cfg, chunks, i);
    }
    CappedTotal(BrowserOf(site), results, chunks, maxBooks);
    SumItemsChunkify(BrowserOf(site), pages, |chunks|);
    CollectShape(results, maxBooks);
  }

  /** What each worker of a job that raised nothing wrote to the progress file: with its
      own pages-done cell starting at 0, exactly the snapshots due while that cell counts
      the pages the worker entered, never more pages than its chunk holds. */
  lemma WorkerProgress(home: Home, site: Site, cpus: nat, maxBooks: nat, i: nat)
    requires Job(home, site, cpus, maxBooks).Finished?
    requires i < |Job(home, site, cpus, maxBooks).progress|
    ensures var chunks := PlanChunks(home.pager, cpus, maxBooks);
      var total := |PlanPages(home.pager, maxBooks)|;
      var entered := Entered(PageSizes(BrowserOf(site), chunks[i]), Some(maxBooks));
      && entered <= |chunks[i]| && total > 0
      && Job(home, site, cpus, maxBooks).progress[i] == Snapshots(ProgressStep, total, 0, entered)
  {
    var pages := PlanPages(home.pager, maxBooks);
    var chunks := PlanChunks(home.pager, cpus, maxBooks);
    var cfg := WorkerConfig(|pages|, maxBooks);
    var runs := RunWorkers(site, cfg, chunks);
    assert |pages| > 0 && i < |runs| && !runs[i].failed
      && Job(home, site, cpus, maxBooks).progress[i] == runs[i].writes by {
      assert chunks != [] && |pages| > 0;
      assert Job(home, site, cpus, maxBooks) == Finished(Collect(BooksOf(runs), maxBooks), WritesOf(runs));
    }
    var start := Run([], Some(0), Some(0), [], false);
    assert runs[i] == ScrapeFrom(BrowserOf(site), cfg, chunks[i], start);
    assert Allowance(Some(0), maxBooks) == Some(maxBooks);
    ScrapeFromProgress(BrowserOf(site), cfg, chunks[i], start);
  }

  /** No snapshot is due on the first four pages when the step is 5 and there are 5 pages. */
  lemma NothingDueEarly(d: nat)
    requires d <= 4
    ensures Snapshots(ProgressStep, 5, 0, d) == []
  {
    if d > 0 {
      assert !SnapshotDue(d, ProgressStep, 5);
      NothingDueEarly(d - 1);
    }
  }

  /** With `MAX_BOOKS = 100`, at least five listing pages and at least two CPUs, the five
      kept pages are dealt over two to four workers, so no chunk holds more than three
      pages; each worker has its own pages-done cell, which therefore never reaches a
      multiple of 5 or the total of 5, and no worker ever writes a progress snapshot. */
  lemma DefaultJobWritesNoProgress(pager: Option<string>, site: Site, cpus: nat)
    requires LastPage(pager) >= 5 && cpus >= 2
    requires Job(HomeLoaded(pager), site, cpus, MaxBooks).Finished?
    ensures forall i :: 0 <= i < |Job(HomeLoaded(pager), site, cpus, MaxBooks).progress| ==>
      Job(HomeLoaded(pager), site, cpus, MaxBooks).progress[i] == []
  {
    var home := HomeLoaded(pager);
    var pages := PlanPages(pager, MaxBooks);
    var chunks := PlanChunks(pager, cpus, MaxBooks);
    var n := NumWorkers(cpus, |pages|);
    assert |pages| == 5;
    assert 2 <= n <= 4 && |chunks| == n;
    forall i | 0 <= i < |Job(home, site, cpus, MaxBooks).progress|
      ensures Job(home, site, cpus, MaxBooks).progress[i] == []
    {
      WorkerProgress(home, site, cpus, MaxBooks, i);
      assert chunks[i] == Stride(pages, i, n);
      StrideAt(pages, i, n, 3);
      NothingDueEarly(Entered(PageSizes(BrowserOf(site), chunks[i]), Some(MaxBooks)));
    }
  }

  /** With a single CPU the one worker gets all five kept pages; when it enters every one
      of them its pages-done cell reaches the total of 5 and it writes 100 exactly once. */
  lemma SingleWorkerWritesOnce(pager: Option<string>, site: Site)
    requires LastPage(pager) >= 5
    requires Job(HomeLoaded(pager), site, 1, MaxBooks).Finished?
    requires Entered(PageSizes(BrowserOf(site), PlanChunks(pager, 1, MaxBooks)[0]), Some(MaxBooks)) == 5
    ensures Job(HomeLoaded(pager), site, 1, MaxBooks).progress == [[100]]
  {
    var home := HomeLoaded(pager);
    var pages := PlanPages(pager, MaxBooks);
    assert |pages| == 5 && |PlanChunks(pager, 1, MaxBooks)| == 1;
    WorkerProgress(home, site, 1, MaxBooks, 0);
    NothingDueEarly(4);
    assert SnapshotDue(5, ProgressStep, 5) && Percent(5, 5) == 100;
    assert Snapshots(ProgressStep, 5, 0, 5) == [100];
  }

  /** Five elements dealt over four chunks: the first chunk gets elements 0 and 4. */
  lemma {:induction false} DealFiveOverFour<T>(lst: seq<T>)
    requires |lst| == 5
    ensures Chunkify(lst, 4) == [[lst[0], lst[4]], [lst[1]], [lst[2]], [lst[3]]]
  {
    var c := Chunkify(lst, 4);
    assert |c| == 4;
    assert Stride(lst, 8, 4) == [] && Stride(lst, 5, 4) == [] && Stride(lst, 6, 4) == [] && Stride(lst, 7, 4) == [];
    assert c[0] == [lst[0]] + Stride(lst, 4, 4) == [lst[0]] + [lst[4]];
    assert c[1] == [lst[1]] + Stride(lst, 5, 4);
    assert c[2] == [lst[2]] + Stride(lst, 6, 4);
    assert c[3] == [lst[3]] + Stride(lst, 7, 4);
    assert c[0] == [lst[0], lst[4]] && c[1] == [lst[1]] && c[2] == [lst[2]] && c[3] == [lst[3]];
    assert c == [c[0], c[1], c[2], c[3]];
  }

  /** With `MAX_BOOKS = 100`, at least five listing pages and at least four CPUs, the deal
      puts pages 1 and 5 in the first chunk and pages 2, 3, 4 in one chunk each, so the
      concatenated result lists the books of page 5 before those of page 2. */
  lemma DefaultDealOrder(pager: Option<string>, cpus: nat)
    requires LastPage(pager) >= 5 && cpus >= MaxWorkers
    ensures PlanChunks(pager, cpus, MaxBooks)
      == [[ListingUrl(1), ListingUrl(5)], [ListingUrl(2)], [ListingUrl(3)], [ListingUrl(4)]]
    ensures Flatten(PlanChunks(pager, cpus, MaxBooks))
      == [ListingUrl(1), ListingUrl(5), ListingUrl(2), ListingUrl(3), ListingUrl(4)]
  {
    var pages := PlanPages(pager, MaxBooks);
    assert |pages| == 5 && NumWorkers(cpus, 5) == 4;
    DealFiveOverFour(pages);
    assert pages[0] == ListingUrl(1) && pages[1] == ListingUrl(2) && pages[2] == ListingUrl(3)
        && pages[3] == ListingUrl(4) && pages[4] == ListingUrl(5);
    var chunks := PlanChunks(pager, cpus, MaxBooks);
    assert Flatten(chunks[4..]) == [];
    assert Flatten(chunks[3..]) == chunks[3];
    assert Flatten(chunks[2..]) == chunks[2] + chunks[3];
    assert Flatten(chunks[1..]) == chunks[1] + chunks[2] + chunks[3];
  }

  /** On a site with a single listing page the one worker enters it and writes 100, once. */
  lemma OnePageSiteWritesOnce(pager: Option<string>, site: Site, cpus: nat)
    requires LastPage(pager) == 1
    requires Job(HomeLoaded(pager), site, cpus, MaxBooks).Finished?
    ensures Job(HomeLoaded(pager), site, cpus, MaxBooks).progress == [[100]]
  {
    var home := HomeLoaded(pager);
    var pages := PlanPages(pager, MaxBooks);
    var chunks := PlanChunks(pager, cpus, MaxBooks);
    assert |pages| == 1 && |chunks| == 1;
    assert |chunks[0]| == 1 by {
      StrideAt(pages, 0, 1, 0);
      StrideAt(pages, 0, 1, 1);
    }
    var sizes := PageSizes(BrowserOf(site), chunks[0]);
    assert Entered(sizes, Some(MaxBooks)) == 1 by {
      assert |sizes| == 1 && sizes[1..] == [];
    }
    WorkerProgress(home, site, cpus, MaxBooks, 0);
    assert SnapshotDue(1, ProgressStep, 1) && Percent(1, 1) == 100;
    assert Snapshots(ProgressStep, 1, 0, 1) == [100];
  }

  /** A detail page that raises sinks the whole job: when the first listing page of some
      chunk has, below the cap, a book link whose visit raises after links that all yield
      records, that worker fails and `pool.map` re-raises it in `main`. */
  lemma DetailFailureCrashes(pager: Option<string>, site: Site, cpus: nat, maxBooks: nat, i: nat, j: nat)
    requires i < |PlanChunks(pager, cpus, maxBooks)| && PlanChunks(pager, cpus, maxBooks)[i] != []
    requires site.listing(PlanChunks(pager, cpus, maxBooks)[i][0]).Listed?
    requires var links := site.listing(PlanChunks(pager, cpus, maxBooks)[i][0]).links;
      j < |links| && j < maxBooks
      && (forall k | 0 <= k < j :: ItemRecord(site, links[k]).Some?)
      && ItemRecord(site, links[j]).None?
    ensures Job(HomeLoaded(pager), site, cpus, maxBooks) == Crashed
  {
    var pages := PlanPages(pager, maxBooks);
    var chunks := PlanChunks(pager, cpus, maxBooks);
    var cfg := WorkerConfig(|pages|, maxBooks);
    var b := BrowserOf(site);
    var runs := RunWorkers(site, cfg, chunks);
    var start := Run([], Some(0), Some(0), [], false);
    var links := site.listing(chunks[i][0]).links;
    ScrapeItemsFailsAt(b, cfg, links, start, j);
    assert runs[i] == ScrapeFrom(b, cfg, chunks[i], start);
    assert runs[i].failed;
  }
}
