/** What one `scrape_pages` call promises: how many records it appends and which ones, how
    the counter cell moves, how many pages it enters and which progress percentages it
    writes. */
module WorkerProperties {
  import opened Common
  import opened Records
  import opened Worker

  /** How many more records the loop may append when `avail` books are available: all of
      them without a counter cell, otherwise no more than what is left below the cap. */
  function Quota(count: Option<int>, maxBooks: int, avail: nat): nat
  {
    match count
    case None => avail
    case Some(c) => if c >= maxBooks then 0 else Min(maxBooks - c, avail)
  }

  /** The book links of the listing pages, page after page. */
  function AllLinks(b: Browser, urls: seq<string>): seq<Option<string>>
  {
    if urls == [] then [] else LinksOf(b, urls[0]) + AllLinks(b, urls[1..])
  }

  function TotalItems(b: Browser, urls: seq<string>): nat
  {
    |AllLinks(b, urls)|
  }

  lemma QuotaStep(count: Option<int>, maxBooks: int, avail: nat)
    requires avail > 0 && !CapReached(count, maxBooks)
    ensures Quota(count, maxBooks, avail) == 1 + Quota(Bump(count), maxBooks, avail - 1)
  {
  }

  lemma QuotaSplit(count: Option<int>, maxBooks: int, a: nat, b: nat)
    ensures var n := Quota(count, maxBooks, a);
      Quota(count, maxBooks, a + b) == n + Quota(Advance(count, n), maxBooks, b)
  {
  }

  /** `r` extends `run` by the records of the first `n` links, in order, and the counter
      moved by `n`. */
  ghost predicate Collected(b: Browser, links: seq<Option<string>>, run: Run, r: Run, n: nat)
  {
    && n <= |links|
    && |r.books| == |run.books| + n
    && r.books[..|run.books|] == run.books
    && (forall k :: 0 <= k < n ==> b.visit(links[k]) == Some(r.books[|run.books| + k]))
    && r.count == Advance(run.count, n)
  }

  /** A page's book loop that raises nothing appends the records of its first `Quota`
      books, in discovery order, bumping the counter once per record, and leaves the
      progress state alone. */
  lemma {:induction false} ScrapeItemsCollects(b: Browser, cfg: Config, links: seq<Option<string>>, run: Run)
    requires !ScrapeItems(b, cfg, links, run).failed
    ensures var r := ScrapeItems(b, cfg, links, run);
      && Collected(b, links, run, r, Quota(run.count, cfg.maxBooks, |links|))
      && r.pagesDone == run.pagesDone && r.writes == run.writes
    decreases |links|
  {
    var r := ScrapeItems(b, cfg, links, run);
    if links == [] || CapReached(run.count, cfg.maxBooks) {
      assert r == run;
      assert run.books[..|run.books|] == run.books;
    } else {
      var item := b.visit(links[0]);
      assert item.Some?;
      var next := run.(books := run.books + [item.value], count := Bump(run.count));
      assert r == ScrapeItems(b, cfg, links[1..], next);
      ScrapeItemsCollects(b, cfg, links[1..], next);
      QuotaStep(run.count, cfg.maxBooks, |links|);
      var n := Quota(run.count, cfg.maxBooks, |links|);
      assert r.books[..|next.books|] == next.books;
      assert r.books[..|run.books|] == next.books[..|run.books|] == run.books;
      forall k | 0 <= k < n ensures b.visit(links[k]) == Some(r.books[|run.books| + k]) {
        if k == 0 {
          assert r.books[|run.books|] == next.books[|run.books|];
        } else {
          assert links[k] == links[1..][k - 1];
        }
      }
    }
  }

  /** Two stretches of collection chain into one, provided the first took all of its
      links whenever the second took any. */
  lemma {:induction false} CollectedChain(b: Browser, first: seq<Option<string>>, second: seq<Option<string>>,
                                         run: Run, mid: Run, r: Run, n1: nat, n2: nat)
    requires Collected(b, first, run, mid, n1) && Collected(b, second, mid, r, n2)
    requires n2 > 0 ==> n1 == |first|
    ensures Collected(b, first + second, run, r, n1 + n2)
  {
    assert r.books[..|run.books|] == r.books[..|mid.books|][..|run.books|];
    forall k | 0 <= k < n1 + n2 ensures b.visit((first + second)[k]) == Some(r.books[|run.books| + k]) {
      if k < n1 {
        assert r.books[|run.books| + k] == r.books[..|mid.books|][|run.books| + k];
      } else {
        assert (first + second)[k] == second[k - n1];
      }
    }
  }

  /** A worker run that raises nothing appends the records of the first
      `Quota(count, max_books, total books)` books of its pages, in page order and then
      discovery order, and the counter moves by exactly the number of records appended. */
  lemma {:induction false} ScrapeFromCollects(b: Browser, cfg: Config, urls: seq<string>, run: Run)
    requires !ScrapeFrom(b, cfg, urls, run).failed
    ensures Collected(b, AllLinks(b, urls), run, ScrapeFrom(b, cfg, urls, run),
                      Quota(run.count, cfg.maxBooks, TotalItems(b, urls)))
    decreases |urls|
  {
    var r := ScrapeFrom(b, cfg, urls, run);
    var maxBooks := cfg.maxBooks;
    if urls == [] || CapReached(run.count, maxBooks) {
      assert r == run;
      assert run.books[..|run.books|] == run.books;
    } else {
      assert !run.failed;
      assert b.listing(urls[0]).Listed?;
      var links := b.listing(urls[0]).links;
      var afterItems := ScrapeItems(b, cfg, links, run);
      assert !afterItems.failed;
      ScrapeFromPage(b, cfg, urls, run);
      ScrapeItemsCollects(b, cfg, links, run);
      var next := FinishPage(cfg, afterItems);
      assert next.books == afterItems.books && next.count == afterItems.count;
      assert r == ScrapeFrom(b, cfg, urls[1..], next);
      ScrapeFromCollects(b, cfg, urls[1..], next);
      var n1 := Quota(run.count, maxBooks, |links|);
      var rest := AllLinks(b, urls[1..]);
      QuotaSplit(run.count, maxBooks, |links|, |rest|);
      assert AllLinks(b, urls) == links + rest;
      assert n1 < |links| ==> CapReached(next.count, maxBooks);
      CollectedChain(b, links, rest, run, next, r, n1, Quota(next.count, maxBooks, |rest|));
    }
  }

  /** The headline property of `scrape_pages`: when no exception escapes, it returns the
      records of the first `Quota` books of its pages in page-then-discovery order; started
      from a counter `c <= max_books` it returns `min(max_books - c, total books)` records
      and leaves the counter at most at `max_books`; without a counter it returns all. */
  lemma ScrapeCollects(b: Browser, cfg: Config, urls: seq<string>, count: Option<int>, pagesDone: Option<nat>)
    requires !Scrape(b, cfg, urls, count, pagesDone).failed
    ensures var r := Scrape(b, cfg, urls, count, pagesDone);
      var all := AllLinks(b, urls);
      && |r.books| == Quota(count, cfg.maxBooks, |all|) <= |all|
      && (forall k :: 0 <= k < |r.books| ==> b.visit(all[k]) == Some(r.books[k]))
      && r.count == Advance(count, |r.books|)
      && (count.None? ==> |r.books| == |all|)
      && (count.Some? && count.value <= cfg.maxBooks ==>
            |r.books| == Min(cfg.maxBooks - count.value, |all|) && r.count.value <= cfg.maxBooks)
  {
    ScrapeFromCollects(b, cfg, urls, Run([], count, pagesDone, [], false));
  }

  /** Once the counter is at the cap, no page is fetched and nothing changes, whatever the
      remaining pages would hold. */
  lemma CapReachedStops(b: Browser, cfg: Config, urls: seq<string>, run: Run)
    requires CapReached(run.count, cfg.maxBooks)
    ensures ScrapeFrom(b, cfg, urls, run) == run
    ensures forall links :: ScrapeItems(b, cfg, links, run) == run
  {
  }

  /** The number of books on each page, in order. */
  function PageSizes(b: Browser, urls: seq<string>): (sizes: seq<nat>)
    ensures |sizes| == |urls|
  {
    if urls == [] then [] else [|LinksOf(b, urls[0])|] + PageSizes(b, urls[1..])
  }

  /** The records still allowed below the cap, or `None` without a counter cell. */
  function Allowance(count: Option<int>, maxBooks: int): Option<int>
  {
    match count
    case None => None
    case Some(c) => Some(maxBooks - c)
  }

  /** How many pages are entered when `allowance` records may still be taken: pages are
      entered while the allowance is positive, each page using up its books. */
  function Entered(sizes: seq<nat>, allowance: Option<int>): (n: nat)
    ensures n <= |sizes|
    ensures allowance.None? ==> n == |sizes|
  {
    if sizes == [] || (allowance.Some? && allowance.value <= 0) then 0
    else
      1 + Entered(sizes[1..], match allowance case None => None case Some(q) => Some(q - sizes[0]))
  }

  /** The percentages written while `pages_done` goes from `d0` to `d1`: one for each value
      for which a snapshot is due, in increasing order. */
  function Snapshots(step: nat, total: nat, d0: nat, d1: nat): seq<nat>
    requires step > 0 && total > 0
    decreases d1
  {
    if d1 <= d0 then []
    else
      Snapshots(step, total, d0, d1 - 1)
        + (if SnapshotDue(d1, step, total) then [Percent(d1, total)] else [])
  }

  lemma {:induction false} SnapshotsConcat(step: nat, total: nat, d0: nat, d1: nat, d2: nat)
    requires step > 0 && total > 0 && d0 <= d1 <= d2
    ensures Snapshots(step, total, d0, d2) == Snapshots(step, total, d0, d1) + Snapshots(step, total, d1, d2)
    decreases d2
  {
    if d2 == d1 {
    } else {
      SnapshotsConcat(step, total, d0, d1, d2 - 1);
    }
  }

  /** The book loop leaves the pages-done cell and the progress history alone: the
      consequence of `ScrapeItemsFrame` the progress proofs use. */
  lemma {:induction false} ScrapeItemsKeepsProgress(b: Browser, cfg: Config, links: seq<Option<string>>, run: Run)
    ensures var r := ScrapeItems(b, cfg, links, run);
      r.pagesDone == run.pagesDone && r.writes == run.writes
  {
    ScrapeItemsFrame(b, cfg, links, run);
  }

  /** A book link that raises, reached below the cap after links that all yield records,
      ends the book loop with the worker failed. */
  lemma {:induction false} ScrapeItemsFailsAt(b: Browser, cfg: Config, links: seq<Option<string>>, run: Run, j: nat)
    requires j < |links| && !run.failed
    requires run.count.Some? && run.count.value + j < cfg.maxBooks
    requires forall k | 0 <= k < j :: b.visit(links[k]).Some?
    requires b.visit(links[j]).None?
    ensures ScrapeItems(b, cfg, links, run).failed
    decreases j
  {
    if j > 0 {
      var rec := b.visit(links[0]).value;
      var next := run.(books := run.books + [rec], count := Bump(run.count));
      assert forall k | 0 <= k < j - 1 :: links[1..][k] == links[k + 1];
      ScrapeItemsFailsAt(b, cfg, links[1..], next, j - 1);
    }
  }

  /** The progress block with reporting on: one more page done and the snapshot for it,
      when one is due. */
  lemma {:induction false} FinishPageReporting(cfg: Config, run: Run)
    requires Reporting(cfg, run.pagesDone) && cfg.progressStep > 0
    ensures var d := run.pagesDone.value;
      FinishPage(cfg, run)
        == run.(pagesDone := Some(d + 1),
                writes := run.writes + Snapshots(cfg.progressStep, cfg.totalPages, d, d + 1))
  {
    var d := run.pagesDone.value;
    assert Snapshots(cfg.progressStep, cfg.totalPages, d, d) == [];
  }

  /** Entering one page with some allowance left uses up its books; once the allowance is
      gone, whether by exactly the page's books or by fewer, no further page is entered. */
  lemma {:induction false} EnteredStep(sizes: seq<nat>, count: Option<int>, maxBooks: int)
    requires sizes != [] && !CapReached(count, maxBooks)
    ensures Entered(sizes, Allowance(count, maxBooks))
      == 1 + Entered(sizes[1..], Allowance(Advance(count, Quota(count, maxBooks, sizes[0])), maxBooks))
  {
    var a := Allowance(count, maxBooks);
    var a' := match a case None => None case Some(q) => Some(q - sizes[0]);
    assert Entered(sizes, a) == 1 + Entered(sizes[1..], a');
    if count.Some? {
      var n1 := Quota(count, maxBooks, sizes[0]);
      if n1 < sizes[0] {
        assert Allowance(Advance(count, n1), maxBooks) == Some(0);
        assert a'.value < 0;
      }
    }
  }

  /** With progress reporting on and no exception, `pages_done` rises by exactly one per
      page entered, including the page on which the book loop stopped at the cap. */
  lemma {:induction false} ScrapeFromPagesDone(b: Browser, cfg: Config, urls: seq<string>, run: Run)
    requires Reporting(cfg, run.pagesDone) && cfg.progressStep > 0
    requires !ScrapeFrom(b, cfg, urls, run).failed
    ensures var r := ScrapeFrom(b, cfg, urls, run);
      && r.pagesDone.Some?
      && r.pagesDone.value == run.pagesDone.value + Entered(PageSizes(b, urls), Allowance(run.count, cfg.maxBooks))
    decreases |urls|
  {
    var r := ScrapeFrom(b, cfg, urls, run);
    var d0 := run.pagesDone.value;
    var maxBooks := cfg.maxBooks;
    var sizes := PageSizes(b, urls);
    if urls == [] || CapReached(run.count, maxBooks) {
      assert r == run;
      assert Entered(sizes, Allowance(run.count, maxBooks)) == 0;
    } else {
      assert !run.failed;
      assert b.listing(urls[0]).Listed?;
      var links := b.listing(urls[0]).links;
      var afterItems := ScrapeItems(b, cfg, links, run);
      assert !afterItems.failed;
      var n1 := Quota(run.count, maxBooks, |links|);
      assert afterItems.count == Advance(run.count, n1) && afterItems.pagesDone == run.pagesDone by {
        ScrapeItemsCollects(b, cfg, links, run);
      }
      var next := FinishPage(cfg, afterItems);
      assert next.count == afterItems.count && next.pagesDone == Some(d0 + 1) by {
        FinishPageReporting(cfg, afterItems);
      }
      assert r == ScrapeFrom(b, cfg, urls[1..], next) by {
        ScrapeFromPage(b, cfg, urls, run);
      }
      assert r.pagesDone == Some(d0 + 1 + Entered(PageSizes(b, urls[1..]), Allowance(next.count, maxBooks))) by {
        ScrapeFromPagesDone(b, cfg, urls[1..], next);
      }
      assert sizes[0] == |links| && sizes[1..] == PageSizes(b, urls[1..]);
      EnteredStep(sizes, run.count, maxBooks);
    }
  }

  /** One page of a run with reporting on that raises nothing: the rest of the run starts
      from one more page done and the snapshot due for it. */
  lemma {:induction false} ProgressPage(b: Browser, cfg: Config, urls: seq<string>, run: Run)
    requires Reporting(cfg, run.pagesDone) && cfg.progressStep > 0
    requires !ScrapeFrom(b, cfg, urls, run).failed
    requires urls != [] && !CapReached(run.count, cfg.maxBooks)
    ensures var next := FinishPage(cfg, ScrapeItems(b, cfg, LinksOf(b, urls[0]), run));
      var d0 := run.pagesDone.value;
      && ScrapeFrom(b, cfg, urls, run) == ScrapeFrom(b, cfg, urls[1..], next)
      && next.pagesDone == Some(d0 + 1)
      && next.writes == run.writes + Snapshots(cfg.progressStep, cfg.totalPages, d0, d0 + 1)
  {
    assert !run.failed;
    assert b.listing(urls[0]).Listed?;
    var links := b.listing(urls[0]).links;
    var afterItems := ScrapeItems(b, cfg, links, run);
    assert !afterItems.failed;
    assert afterItems.pagesDone == run.pagesDone && afterItems.writes == run.writes by {
      ScrapeItemsKeepsProgress(b, cfg, links, run);
    }
    FinishPageReporting(cfg, afterItems);
    ScrapeFromPage(b, cfg, urls, run);
  }

  /** With progress reporting on and no exception, the pages-done cell only grows and the
      progress file receives exactly the snapshots due between its first and last value. */
  lemma {:induction false} ScrapeFromWrites(b: Browser, cfg: Config, urls: seq<string>, run: Run)
    requires Reporting(cfg, run.pagesDone) && cfg.progressStep > 0
    requires !ScrapeFrom(b, cfg, urls, run).failed
    ensures var r := ScrapeFrom(b, cfg, urls, run);
      var d0 := run.pagesDone.value;
      && r.pagesDone.Some? && d0 <= r.pagesDone.value
      && r.writes == run.writes + Snapshots(cfg.progressStep, cfg.totalPages, d0, r.pagesDone.value)
    decreases |urls|
  {
    var r := ScrapeFrom(b, cfg, urls, run);
    var d0 := run.pagesDone.value;
    var step, total := cfg.progressStep, cfg.totalPages;
    if urls == [] || CapReached(run.count, cfg.maxBooks) {
      assert r == run;
      assert Snapshots(step, total, d0, d0) == [];
      assert run.writes + [] == run.writes;
    } else {
      var next := FinishPage(cfg, ScrapeItems(b, cfg, LinksOf(b, urls[0]), run));
      ProgressPage(b, cfg, urls, run);
      assert r.pagesDone.Some? && d0 + 1 <= r.pagesDone.value
        && r.writes == next.writes + Snapshots(step, total, d0 + 1, r.pagesDone.value) by {
        ScrapeFromWrites(b, cfg, urls[1..], next);
      }
      SnapshotsConcat(step, total, d0, d0 + 1, r.pagesDone.value);
    }
  }

  /** With progress reporting on and no exception, `pages_done` rises by exactly one per
      page entered — including the page on which the book loop stopped at the cap — and the
      progress file receives exactly the snapshots due along the way. */
  lemma ScrapeFromProgress(b: Browser, cfg: Config, urls: seq<string>, run: Run)
    requires Reporting(cfg, run.pagesDone) && cfg.progressStep > 0
    requires !ScrapeFrom(b, cfg, urls, run).failed
    ensures var r := ScrapeFrom(b, cfg, urls, run);
      var d0 := run.pagesDone.value;
      && r.pagesDone.Some?
      && r.pagesDone.value == d0 + Entered(PageSizes(b, urls), Allowance(run.count, cfg.maxBooks))
      && r.writes == run.writes + Snapshots(cfg.progressStep, cfg.totalPages, d0, r.pagesDone.value)
  {
    ScrapeFromPagesDone(b, cfg, urls, run);
    ScrapeFromWrites(b, cfg, urls, run);
  }

  /** Without progress reporting the pages-done cell and the progress file are untouched. */
  lemma {:induction false} ScrapeFromSilent(b: Browser, cfg: Config, urls: seq<string>, run: Run)
    requires !Reporting(cfg, run.pagesDone)
    ensures var r := ScrapeFrom(b, cfg, urls, run);
      r.pagesDone == run.pagesDone && r.writes == run.writes
    decreases |urls|
  {
    if urls != [] && !run.failed && !CapReached(run.count, cfg.maxBooks) && b.listing(urls[0]).Listed? {
      var afterItems := ScrapeItems(b, cfg, b.listing(urls[0]).links, run);
      ScrapeItemsKeepsProgress(b, cfg, b.listing(urls[0]).links, run);
      if !afterItems.failed {
        ScrapeFromSilent(b, cfg, urls[1..], FinishPage(cfg, afterItems));
      }
    }
  }

  /** `int(100 * done / total)` lies in 0..100 while `done <= total`, is 100 on the last
      page, and never decreases as `done` grows. */
  lemma PercentBounds(done: nat, total: nat)
    requires 0 < total && done <= total
    ensures Percent(done, total) <= 100
    ensures done == total ==> Percent(done, total) == 100
  {
    PercentMonotone(done, total, total);
  }

  lemma PercentMonotone(a: nat, b: nat, total: nat)
    requires 0 < total && a <= b
    ensures Percent(a, total) <= Percent(b, total)
  {
    var qa, qb := (100 * a) / total, (100 * b) / total;
    assert qa * total <= 100 * a;
    assert 100 * b < (qb + 1) * total;
    MulCancel(qa, qb + 1, total);
  }

  lemma MulCancel(x: nat, y: nat, t: nat)
    requires t > 0 && x * t < y * t
    ensures x < y
  {
    if x >= y {
      MulMonotone(y, x, t);
    }
  }

  lemma {:induction false} MulMonotone(x: nat, y: nat, t: nat)
    requires x <= y
    ensures x * t <= y * t
    decreases t
  {
    if t > 0 {
      MulMonotone(x, y, t - 1);
      assert x * t == x * (t - 1) + x;
      assert y * t == y * (t - 1) + y;
    }
  }

  /** The snapshots written while `pages_done` stays within `total` are percentages in
      0..100, in non-decreasing order, and the last one is 100 when the run ends on the
      last page. */
  lemma {:induction false} SnapshotsShape(step: nat, total: nat, d0: nat, d1: nat)
    requires step > 0 && total > 0 && d1 <= total
    ensures forall k :: 0 <= k < |Snapshots(step, total, d0, d1)| ==> Snapshots(step, total, d0, d1)[k] <= 100
    ensures forall j, k :: 0 <= j <= k < |Snapshots(step, total, d0, d1)| ==>
      Snapshots(step, total, d0, d1)[j] <= Snapshots(step, total, d0, d1)[k]
    ensures forall k :: 0 <= k < |Snapshots(step, total, d0, d1)| ==>
      Snapshots(step, total, d0, d1)[k] <= Percent(d1, total)
    ensures d0 < d1 == total ==>
      |Snapshots(step, total, d0, d1)| > 0 && Snapshots(step, total, d0, d1)[|Snapshots(step, total, d0, d1)| - 1] == 100
    decreases d1
  {
    if d1 > d0 {
      var s' := Snapshots(step, total, d0, d1 - 1);
      var tail := if SnapshotDue(d1, step, total) then [Percent(d1, total)] else [];
      var s := s' + tail;
      SnapshotsShape(step, total, d0, d1 - 1);
      PercentBounds(d1, total);
      PercentMonotone(d1 - 1, d1, total);
      assert s == Snapshots(step, total, d0, d1);
      forall k | 0 <= k < |s| ensures s[k] <= Percent(d1, total) {
        if k < |s'| {
          assert s[k] == s'[k] <= Percent(d1 - 1, total);
        } else {
          assert s[k] == tail[k - |s'|] == Percent(d1, total);
        }
      }
      forall j, k | 0 <= j <= k < |s| ensures s[j] <= s[k] {
        if k < |s'| {
          assert s[j] == s'[j] && s[k] == s'[k];
        } else {
          assert s[k] == Percent(d1, total);
          if j < |s'| {
            assert s[j] == s'[j] <= Percent(d1 - 1, total);
          }
        }
      }
    }
  }
}
