/** Page enumeration: `get_all_page_urls` once the browser is abstracted away. The root
    page's pager element is an input: `None` when `query_selector('.current')` finds
    nothing or reading its text raises, `Some(text)` otherwise. */
module Pages {
  import opened Common
  import opened Text

  const BaseUrl: string := "https://books.toscrape.com/"
  const CatalogueUrl: string := BaseUrl + "catalogue/"

  /** `last_page`: 1 by default; the last whitespace-separated token of the pager text
      parsed by `int()` when there is one and it parses (an empty token list raises
      `IndexError` and an unparsable token `ValueError`; both are swallowed). */
  function LastPage(pager: Option<string>): int
  {
    match pager
    case None => 1
    case Some(text) =>
      var tokens := Split(Strip(text));
      if tokens == [] then 1
      else
        match ParseInt(tokens[|tokens| - 1])
        case None => 1
        case Some(n) => n
  }

  /** The uniform shape of a listing-page URL. */
  function ListingUrl(i: nat): string
  {
    BaseUrl + "catalogue/page-" + NatToString(i) + ".html"
  }

  /** The element expression of the comprehension, with its two branches. */
  function PageUrl(i: nat): string
  {
    if i > 1 then BaseUrl + "catalogue/page-" + NatToString(i) + ".html"
    else BaseUrl + "catalogue/page-1.html"
  }

  /** `[... for i in range(1, last_page + 1)]`: one URL per page 1..last_page, none at all
      when `last_page` is below 1; both branches of the conditional give the same URL. */
  function PageUrls(pager: Option<string>): (urls: seq<string>)
    ensures |urls| == Max(0, LastPage(pager))
    ensures forall k :: 0 <= k < |urls| ==> urls[k] == ListingUrl(k + 1)
  {
    var n := Max(0, LastPage(pager));
    assert NatToString(1) == "1";
    seq(n, k requires 0 <= k => PageUrl(k + 1))
  }

  /** Without a usable pager the crawl still covers exactly the first page. */
  lemma NoPagerMeansOnePage(pager: Option<string>)
    requires pager.None?
      || Split(Strip(pager.value)) == []
      || ParseInt(Split(Strip(pager.value))[|Split(Strip(pager.value))| - 1]).None?
    ensures PageUrls(pager) == [BaseUrl + "catalogue/page-1.html"]
  {
    assert NatToString(1) == "1";
  }

  /** The pager of books.toscrape.com reads "Page 1 of N": the enumeration then yields
      exactly N listing URLs, for every N. */
  lemma PagerRoundTrip(n: nat)
    ensures LastPage(Some("Page 1 of " + NatToString(n))) == n
    ensures |PageUrls(Some("Page 1 of " + NatToString(n)))| == n
  {
    var digits := NatToString(n);
    var text := "Page 1 of " + digits;
    assert text == "Page 1 of" + " " + digits;
    assert !IsSpace(text[0]) && text[|text| - 1] == digits[|digits| - 1];
    assert StripLeft(text, IsSpace) == text;
    assert StripRight(text, IsSpace) == text;
    SplitAppendToken("Page 1 of", digits);
    ParseIntOfNatToString(n);
  }
}
