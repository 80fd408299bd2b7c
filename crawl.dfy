/** The crawl job `main`: enumerate the listing pages, keep the prefix needed for
    `max_books`, deal it over the workers, run `scrape_pages` on every chunk (as
    `pool.map` does: one result per chunk, in chunk order), then concatenate and cut the
    results to `max_books`. */
module Crawl {
  import opened Common
  import opened Pages
  import opened Records
  import opened Worker
  import opened WorkerProperties
  import opened Partition

  const BooksPerPage: nat := 20
  const MaxWorkers: nat := 4
  const MaxBooks: nat := 100
  const ProgressFile: string := "progress.json"
  const ProgressStep: nat := 5

  /** What `page.goto(BASE_URL)` and the pager lookup yield: a navigation that raises (it
      sits outside the `try`, so the job fails), or the pager text when there is one. */
  datatype Home = HomeUnreachable | HomeLoaded(pager: Option<string>)

  /** The end of a job: an exception escaped `main` (from the home page, from `Pool` or from
      a worker), or the collected records together with what each worker wrote to the
      progress file, in chunk order. */
  datatype Outcome = Crashed | Finished(books: seq<Record>, progress: seq<seq<nat>>)

  /** `(max_books + books_per_page - 1) // books_per_page`. */
  function NeededPages(maxBooks: nat): nat
  {
    (maxBooks + BooksPerPage - 1) / BooksPerPage
  }

  /** `page_urls[:needed_pages]`. */
  function Planned(urls: seq<string>, maxBooks: nat): seq<string>
  {
    urls[..Min(NeededPages(maxBooks), |urls|)]
  }

  /** `min(4, cpu_count(), len(page_urls))`. */
  function NumWorkers(cpus: nat, pages: nat): nat
  {
    Min(MaxWorkers, Min(cpus, pages))
  }

  /** The pages kept for the job: the enumerated URLs cut to the prefix `max_books`
      needs. */
  function PlanPages(pager: Option<string>, maxBooks: nat): seq<string>
  {
    Planned(PageUrls(pager), maxBooks)
  }

  /** `chunkify(page_urls, num_workers)`: one chunk per worker. */
  function PlanChunks(pager: Option<string>, cpus: nat, maxBooks: nat): seq<seq<string>>
  {
    var pages := PlanPages(pager, maxBooks);
    Chunkify(pages, NumWorkers(cpus, |pages|))
  }

  /** The arguments every worker receives besides its chunk and the two cells. */
  function WorkerConfig(pages: nat, maxBooks: nat): Config
  {
    Config(maxBooks, Some(ProgressFile), pages, ProgressStep)
  }

  /** `pool.map(worker, args)`: each chunk scraped with its own copy of `[0]` for the
      counter and the pages-done cell. */
  function RunWorkers(site: Site, cfg: Config, chunks: seq<seq<string>>): (runs: seq<Run>)
    ensures |runs| == |chunks|
  {
    seq(|chunks|, i requires 0 <= i < |chunks| => Scrape(BrowserOf(site), cfg, chunks[i], Some(0), Some(0)))
  }

  function BooksOf(runs: seq<Run>): (results: seq<seq<Record>>)
    ensures |results| == |runs|
  {
    seq(|runs|, i requires 0 <= i < |runs| => runs[i].books)
  }

  function WritesOf(runs: seq<Run>): (writes: seq<seq<nat>>)
    ensures |writes| == |runs|
  {
    seq(|runs|, i requires 0 <= i < |runs| => runs[i].writes)
  }

  /** `[book for sublist in results for book in sublist][:max_books]`. */
  function Collect(results: seq<seq<Record>>, maxBooks: nat): seq<Record>
  {
    var all := Flatten(results);
    all[..Min(maxBooks, |all|)]
  }

  /** The whole job, run with `max_books` records allowed and `cpus` reported by
      `cpu_count()`. `Pool(processes=0)` raises, and so does `pool.map` when a worker
      raised. */
  function Job(home: Home, site: Site, cpus: nat, maxBooks: nat): Outcome
  {
    match home
    case HomeUnreachable => Crashed
    case HomeLoaded(pager) =>
      var pages := PlanPages(pager, maxBooks);
      var chunks := PlanChunks(pager, cpus, maxBooks);
      if chunks == [] then Crashed
      else
        var runs := RunWorkers(site, WorkerConfig(|pages|, maxBooks), chunks);
        if exists i | 0 <= i < |runs| :: runs[i].failed then Crashed
        else Finished(Collect(BooksOf(runs), maxBooks), WritesOf(runs))
  }
}
