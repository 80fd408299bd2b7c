# books.toscrape.com crawl engine, modelled in Dafny

This project models the crawl engine of `scraper.py`, a crawler for books.toscrape.com
that drives a headless browser. The engine works in four steps:

1. It reads the pager of the home page ("Page 1 of N") and enumerates the listing-page URLs
   (`get_all_page_urls`).
2. It keeps only the pages needed for `MAX_BOOKS` records, at 20 books a page. It then deals
   them round-robin over at most four worker processes (`chunkify` and the planning in
   `main`).
3. Each worker runs `scrape_pages` over its chunk. For every book it opens the detail page
   and builds an eleven-field record. A counter cell enforces the cap, and a pages-done cell
   decides when a progress percentage is written to `progress.json`.
4. The per-worker results are concatenated in chunk order and cut to `MAX_BOOKS`.

The browser becomes plain data:
- A `Site` maps a listing URL to its book links, or to a navigation that raises.
- It maps a detail URL to the texts its lookups yield, or to a navigation that raises.
- A lookup that raises inside one of the `try` blocks is `None`.
- An exception that escapes `scrape_pages` sets the run's `failed` flag.
- An escaped exception makes the whole job `Crashed`, because `pool.map` re-raises it.

Modules:
- `Common`: `Option`, `Flatten`, `Min`/`Max`.
- `Text`: Python's `strip`, `split`, `int()`, `str(int)` and `replace(pat, '')` on strings.
- `Pages`: page enumeration.
- `Records`: the detail URL, the attribute table and the record.
- `Worker`: the spec functions of the worker loop (`ScrapeItems`, `FinishPage`, `ScrapeFrom`,
  `Scrape`), plus the imperative methods proved equal to them (`ReadAttributes`,
  `ScrapeBook`, `ScrapeListing`, `ScrapePages`).
- `WorkerProperties`: what one worker run promises.
- `Partition`: `chunkify`.
- `Crawl`: `main` as a function `Job` from the home page, the site and `cpu_count()` to an
  `Outcome`.
- `CrawlProperties`: what a job promises.

Where the code and its prose description differ, the model follows the code:
- Progress is counted in pages, and a percentage is written only when a snapshot is due
  (scraper.py:86-91).
- `global_count` and `pages_done` are plain lists handed to `multiprocessing.Pool`, so each
  worker process receives its own copy holding `[0]`.
  - The cap is therefore enforced per worker. The job-wide cap is only the final slice.
  - The progress counting is per worker too. `WorkerProgress` states what each worker
    writes.
  - With `MAX_BOOKS = 100`, at least five listing pages and at least two CPUs, no worker
    writes a progress snapshot at all (`DefaultJobWritesNoProgress`): no chunk holds more
    than three of the five pages. The progress file then holds only the 0 and 100 that
    `main` writes itself. With one CPU the single worker does write 100 once it has
    entered all five pages (`SingleWorkerWritesOnce`), and on a site with one listing page
    the only worker writes 100 after it (`OnePageSiteWritesOnce`).
- The output is in chunk order, not page order. Round-robin dealing followed by
  concatenation in chunk order puts the books of page 5 right after those of page 1 when
  five pages go to four workers: the order is pages 1, 5, 2, 3, 4 (`DefaultDealOrder`).
- A detail page whose navigation raises is not caught: that worker, and with it the job,
  fails (`DetailFailureCrashes`). A missing field becoming `''` applies only to the lookups inside the `try` blocks.

## Model

| member | source | states |
|---|---|---|
| Pages.LastPage | scraper.py:17-24 | definition of `last_page`; properties in `Pages.NoPagerMeansOnePage` and `Pages.PagerRoundTrip` |
| Pages.PageUrl | scraper.py:26 | definition of the comprehension's element with both branches; `Pages.PageUrls` proves the branches agree |
| Text.Strip | scraper.py:22 | definition of `str.strip()`; properties in `Text.StripLeftSpec` and `Text.StripRightSpec` |
| Text.StripLeftSpec | scraper.py:22 | stripping on the left drops exactly the leading characters of the given whitespace class and keeps the rest |
| Text.StripRightSpec | scraper.py:22 | stripping on the right drops exactly the trailing characters of the given whitespace class and keeps the rest |
| Text.Split | scraper.py:22 | every token of `split()` is non-empty and free of whitespace; maximality in `Text.SplitToken` and `Text.SplitAtBlank`, contents in `Text.SplitJoin` |
| Text.SplitToken | scraper.py:22 | a non-empty text without whitespace is a single token: `split()` never cuts inside a word |
| Text.SplitAtBlank | scraper.py:22 | for any whitespace character `w`, the tokens of `a + w + c` are those of `a` followed by those of `c`: no token spans a blank |
| Text.ParseDigits | scraper.py:22 | a digit string with single underscores between digits parses, and nothing else does |
| Text.ParseInt | scraper.py:22 | `int()` succeeds only on text that, once the whitespace `int()` ignores is stripped (every `isspace()` character but U+001C to U+001F), ends in a digit; round trip in `Text.ParseIntOfNatToString` |
| Text.NatToString | scraper.py:26 | `str(n)` is a non-empty run of digits with no leading zero unless `n` is 0 |
| Text.RemoveAll | scraper.py:44 | `replace(pat, '')` never lengthens the string; more in `Text.RemoveAllUnchangedIff` |
| Records.DetailUrl | scraper.py:43-44 | definition of the detail URL; properties in `Records.DetailUrlPlain` and `Records.DetailUrlOfRelativeLink` |
| Records.Attributes | scraper.py:62-70 | definition of the `info` dictionary; properties in `Records.AttributesLastValue` |
| Records.BuildRecord | scraper.py:46-83 | definition of the record; properties in `Records.RecordFields` and `Records.UnknownRowIgnored` |
| Worker.ItemRecord | scraper.py:43-83 | definition of one book's outcome; implemented by `Worker.ScrapeBook` |
| Worker.ScrapeItems | scraper.py:40-85 | definition of the book loop; properties in `WorkerProperties.ScrapeItemsCollects` |
| Worker.FinishPage | scraper.py:86-91 | definition of the progress block; properties in `WorkerProperties.ScrapeFromProgress` |
| Worker.ScrapeFrom | scraper.py:34-91 | definition of the page loop; properties in `WorkerProperties.ScrapeFromCollects` and `WorkerProperties.ScrapeFromProgress` |
| Worker.Scrape | scraper.py:28-95 | definition of one `scrape_pages` call; implemented by `Worker.ScrapePages`, properties in `WorkerProperties.ScrapeCollects` |
| Partition.Stride | scraper.py:98 | definition of `lst[i::n]`; properties in `Partition.StrideAt` |
| Crawl.NeededPages | scraper.py:110 | definition; properties in `CrawlProperties.NeededPagesLeast` |
| Crawl.Planned | scraper.py:111 | definition; properties in `CrawlProperties.PlannedPrefix` |
| Crawl.NumWorkers | scraper.py:112 | definition; properties in `CrawlProperties.NumWorkersBounds` |
| Crawl.RunWorkers | scraper.py:116-123 | one run per chunk; each run's records in `CrawlProperties.WorkerRecords` |
| Crawl.Collect | scraper.py:124 | definition; properties in `CrawlProperties.CollectShape` |
| Crawl.Job | scraper.py:103-124 | definition of the whole job; properties in `CrawlProperties.JobFinished` and `CrawlProperties.WorkerProgress` |
| Pages.PageUrls | scraper.py:17-26 | there are `max(0, last_page)` URLs; entry `k` is `BASE_URL + 'catalogue/page-' + str(k+1) + '.html'` for every `k`, so both branches of the conditional give the same URL |
| Pages.NoPagerMeansOnePage | scraper.py:17-24 | a missing pager, an empty token list or an unparsable last token leaves `last_page` at 1, and exactly the URL of page 1 results |
| Pages.PagerRoundTrip | scraper.py:19-26 | for every `N`, the pager text "Page 1 of N" yields `last_page == N` and exactly `N` URLs |
| Text.ParseIntOfNatToString | scraper.py:22 | `int()` reads back every decimal rendering: `int(str(n)) == n` |
| Text.SplitJoin | scraper.py:22 | the tokens of `split()` joined together are the text minus its whitespace |
| Text.SplitAppendToken | scraper.py:22 | a token written after a blank becomes the last token of `split()` |
| Text.RemoveAllUnchangedIff | scraper.py:44 | `replace(pat, '')` leaves a string unchanged exactly when `pat` does not occur in it |
| Records.DetailUrlPlain | scraper.py:43-44 | the detail URL equals `CATALOGUE_URL + href` if and only if `href` holds no `'../../../'` |
| Records.DetailUrlOfRelativeLink | scraper.py:43-44 | a link `'../../../' + path` (path free of the pattern) resolves to `CATALOGUE_URL + path` |
| Records.ReadRowsExact | scraper.py:63-70 | the rows stored are exactly those before the first row whose `th` or `td` is missing |
| Records.AttributesLastValue | scraper.py:62-70 | a key is in `info` if and only if some stored row has it; its value is that of the last such row |
| Records.RecordFields | scraper.py:46-83 | all eleven fields are present; a failed plain lookup gives `''`; availability is stripped; each attribute field is the last row value for its key or `''`; `url` is the detail URL |
| Records.UnknownRowIgnored | scraper.py:62-83 | inserting a row whose key is not one of the six attribute keys, anywhere among the rows read, leaves the record unchanged |
| Worker.ReadAttributes | scraper.py:62-70 | the row loop with its `break` on a missing cell computes the `info` dictionary that `Attributes` specifies |
| Worker.ScrapeBook | scraper.py:43-83 | the body of the book loop returns the record for that link, or `None` when the link or the detail navigation raises |
| Worker.ScrapeListing | scraper.py:40-85 | the book loop, with its cap check and counter bump, ends in the state `ScrapeItems` specifies |
| Worker.ReportPage | scraper.py:86-91 | the progress block bumps the pages-done cell, appends the percentage when a snapshot is due and raises on a zero step, as `FinishPage` specifies |
| Worker.ScrapePages | scraper.py:28-95 | the whole worker method returns the records, final cells, progress writes and failure flag that `Scrape` specifies |
| WorkerProperties.ScrapeItemsCollects | scraper.py:40-85 | one page's book loop that raises nothing appends the records of its first `Quota` books in order, bumps the counter once per record, and leaves the progress state alone |
| WorkerProperties.ScrapeFromCollects | scraper.py:34-91 | from any state, a run that raises nothing appends the records of the first `Quota` books of its pages, in page-then-book order, and the counter rises by exactly the number appended |
| WorkerProperties.ScrapeCollects | scraper.py:28-95 | a worker started with counter `c <= max_books` returns `min(max_books - c, total books)` records, the i-th being the record of the i-th book; the final counter is at most `max_books`; without a counter it returns every book |
| WorkerProperties.ScrapeItemsFailsAt | scraper.py:40-45 | below the cap, a book link whose detail visit raises, after links that all yield records, leaves the worker failed |
| WorkerProperties.CapReachedStops | scraper.py:34-42 | once the counter is at the cap, no page is fetched, no book is processed, and nothing changes |
| WorkerProperties.ScrapeFromPagesDone | scraper.py:34-91 | with reporting on and no exception, `pages_done` rises by exactly one per page entered, the page where the cap stopped the book loop included |
| WorkerProperties.ScrapeFromWrites | scraper.py:34-91 | with reporting on and no exception, the pages-done cell never falls and the progress file receives exactly the snapshots due between its first and last value, in order |
| WorkerProperties.ScrapeFromProgress | scraper.py:34-91 | with reporting on and no exception, `pages_done` rises by one per page entered (including the page where the cap stopped the book loop), and the writes are exactly the due snapshots, in order |
| WorkerProperties.ScrapeFromSilent | scraper.py:86 | without a progress file, a total or a pages-done cell, neither the cell nor the progress file changes |
| WorkerProperties.PercentBounds | scraper.py:89 | the percentage lies in 0..100 while `pages_done <= total_pages`, and is 100 on the last page |
| WorkerProperties.PercentMonotone | scraper.py:89 | the percentage never decreases as `pages_done` grows |
| WorkerProperties.SnapshotsShape | scraper.py:86-91 | the written percentages are at most 100, non-decreasing, and never above the final one; the last one is 100 when the run ends on the last page |
| Partition.Chunkify | scraper.py:97-98 | `chunkify(lst, n)` returns exactly `n` chunks |
| Partition.StrideAt | scraper.py:98 | position `j` of `lst[i::n]` exists if and only if `i + j*n < len(lst)`, and then holds `lst[i + j*n]` |
| Partition.ChunkifyPlacement | scraper.py:97-98 | element `k` lands at position `k div n` of chunk `k mod n`, and every element of every chunk comes from `lst` that way |
| Partition.ChunksNonEmpty | scraper.py:97-98 | with `1 <= n <= len(lst)` no chunk is empty |
| Partition.ChunkifyAppend | scraper.py:97-98 | appending one element to `lst` appends it to chunk `len(lst) mod n` and leaves the other chunks unchanged |
| Partition.ChunkifyPermutation | scraper.py:97-98 | the chunks together hold every element exactly once (as multisets), and their lengths sum to `len(lst)` |
| CrawlProperties.NeededPagesLeast | scraper.py:109-110 | `needed_pages` is the least `p` with `20*p >= max_books`, and is at least 1 when `max_books >= 1` |
| CrawlProperties.DefaultNeededPages | scraper.py:107-110 | with `MAX_BOOKS = 100`, five pages are needed |
| CrawlProperties.PlannedPrefix | scraper.py:111 | the kept list has `min(needed_pages, len(page_urls))` URLs and is a prefix of the enumeration |
| CrawlProperties.NumWorkersBounds | scraper.py:112 | `num_workers` is at most 4, `cpu_count()` and the page count, and is 0 only when one of the latter two is |
| CrawlProperties.PlanCoversPages | scraper.py:111-113 | when there is any chunk, every chunk is non-empty and the chunks hold exactly the kept pages |
| CrawlProperties.CollectShape | scraper.py:124 | the cut keeps `min(max_books, total)` records from the front of the concatenation; record `j` of chunk `i` sits at its offset in chunk order whenever that offset is below `max_books` |
| CrawlProperties.SumItemsChunkify | scraper.py:113-123 | the chunks hold as many books, all together, as the kept pages |
| CrawlProperties.ChunkLinksChunkify | scraper.py:113-123 | the book links of all chunks together are those of the kept pages, each as often (multiset equality) |
| CrawlProperties.WorkerRecords | scraper.py:116-123 | each worker, starting from its own counter `[0]`, returns the records of the first `min(max_books, books in its chunk)` books in order |
| CrawlProperties.JobFinished | scraper.py:105-124 | a job that raises nothing returns `min(max_books, books on the kept pages)` records, each worker's records in its own order, chunk after chunk, as far as the cut reaches |
| CrawlProperties.DetailFailureCrashes | scraper.py:43-123 | when some chunk's first listing page has, below the cap, a book link whose detail visit raises after links that all yield records, the whole job is `Crashed` |
| CrawlProperties.WorkerProgress | scraper.py:86-123 | each worker writes exactly the snapshots due as its own pages-done cell counts from 0 over the pages it entered, never more pages than its chunk holds |
| CrawlProperties.DefaultJobWritesNoProgress | scraper.py:86-123 | with `MAX_BOOKS = 100`, at least five listing pages and at least two CPUs, no worker writes any progress snapshot |
| CrawlProperties.SingleWorkerWritesOnce | scraper.py:86-123 | with `MAX_BOOKS = 100`, at least five listing pages and one CPU, a worker that enters all five pages writes 100, once |
| CrawlProperties.OnePageSiteWritesOnce | scraper.py:86-123 | with `MAX_BOOKS = 100` and a site of one listing page, the single worker writes 100, once |
| CrawlProperties.DefaultDealOrder | scraper.py:97-113 | with `MAX_BOOKS = 100`, at least five listing pages and at least four CPUs, the chunks are pages [1, 5], [2], [3], [4], concatenated as 1, 5, 2, 3, 4 |

## Left out

- Browser calls (launch, `goto`, `query_selector`, `inner_text`, `get_attribute`, closing): these are foreign calls. They are the `Site` input. `Site` is deterministic: the same URL always yields the same page.
- `multiprocessing.Pool`: concurrency is not modelled. `pool.map` is an ordered map of the sequential worker over the chunks. Each worker gets its own copy of the two `[0]` cells, as pickling gives it. `Pool(processes=0)` raising becomes `Crashed`.
- The interleaving of progress-file writes from several processes: the model keeps each worker's own sequence of written percentages, not their merged order in the file.
- JSON writing: the model keeps the percentage each write carries, not its JSON text.
- `main`'s own writes of 0 and 100 to the progress file.
- `print` and the pandas `DataFrame`/`to_excel` output: these are I/O.
- `main`'s returned dictionary: it is not modelled.
- `time.time()` and the elapsed time: wall-clock floats.
- `int(100 * pages_done / total_pages)` uses float division: it is integer division here. For these small non-negative integers the truncated quotient is the same.
- Text.ParseInt: Python's `int()` also accepts non-ASCII Unicode digits; the model accepts only `0`-`9` with single underscores between digits.
- Worker.Config: `total_pages` and `progress_step` are natural numbers. A negative value cannot be passed; `main` never passes one.
- Worker.Config: `total_pages=None` is the same as 0, since only its truthiness is read.
- The counter and pages-done cells are `Option` values. An empty list passed as `pages_done` (which would raise `IndexError`) is not modelled.
- Crawl.Job: `max_books` is a natural number. Negative values and Python's negative slice bounds do not arise from `MAX_BOOKS` and are not modelled.
- `app.py` (the Flask front end that starts the scraper as a subprocess and serves its files) is HTTP and process glue. It is not part of this model.
- `config.py` is a constant mapping with no behaviour. It is not part of this model.
