/** The record built for one book in `scrape_pages`: each detail-page lookup that raises
    becomes `''`, the attribute table is read row by row into a dictionary, and the
    detail URL is rebuilt from the listing's relative link. */
module Records {
  import opened Common
  import opened Text
  import Pages

  /** One `tr` of the product table: the `th` and `td` lookups, `None` when the cell is
      missing (so that `.inner_text()` raises). */
  datatype Row = Row(key: Option<string>, value: Option<string>)

  /** What the detail page yields: the text of each looked-up element (`None` when the
      lookup raises) and the rows of the product table. */
  datatype Detail = Detail(
    title: Option<string>,
    price: Option<string>,
    availability: Option<string>,
    description: Option<string>,
    rows: seq<Row>)

  /** The dictionary appended to `all_books`: eleven fields, always all present. */
  datatype Record = Record(
    title: string,
    price: string,
    availability: string,
    description: string,
    upc: string,
    productType: string,
    priceExclTax: string,
    priceInclTax: string,
    tax: string,
    numReviews: string,
    url: string)

  const UpcKey: string := "UPC"
  const ProductTypeKey: string := "Product Type"
  const PriceExclTaxKey: string := "Price (excl. tax)"
  const PriceInclTaxKey: string := "Price (incl. tax)"
  const TaxKey: string := "Tax"
  const NumReviewsKey: string := "Number of reviews"

  /** The table keys that reach the record; every other key is read but never used. */
  const AttributeKeys: seq<string> :=
    [UpcKey, ProductTypeKey, PriceExclTaxKey, PriceInclTaxKey, TaxKey, NumReviewsKey]

  /** The prefix of `../` hops that listing pages put in front of a book's link. */
  const UpDirs: string := "../../../"

  /** `CATALOGUE_URL + detail_href.replace('../../../', '')`. */
  function DetailUrl(href: string): string
  {
    Pages.CatalogueUrl + RemoveAll(href, UpDirs)
  }

  /** The detail URL is the catalogue URL followed by the link itself exactly when the
      link holds no `../../../`. */
  lemma DetailUrlPlain(href: string)
    ensures DetailUrl(href) == Pages.CatalogueUrl + href <==> !Occurs(href, UpDirs)
  {
    RemoveAllUnchangedIff(href, UpDirs);
    var r := RemoveAll(href, UpDirs);
    assert (Pages.CatalogueUrl + r)[|Pages.CatalogueUrl|..] == r;
    assert (Pages.CatalogueUrl + href)[|Pages.CatalogueUrl|..] == href;
  }

  /** A link of the form `../../../<path>` resolves to `CATALOGUE_URL + <path>`. */
  lemma DetailUrlOfRelativeLink(path: string)
    requires !Occurs(path, UpDirs)
    ensures DetailUrl(UpDirs + path) == Pages.CatalogueUrl + path
  {
    assert (UpDirs + path)[..|UpDirs|] == UpDirs;
    assert (UpDirs + path)[|UpDirs|..] == path;
    RemoveAllNoOccurrence(path, UpDirs);
  }

  /** The `info` dictionary after the row loop, starting from `info`: rows are stored in
      order, a later row overwriting an earlier one with the same key; the first row with
      a missing cell raises, and the `except` clause keeps what was stored before it. */
  function Attributes(rows: seq<Row>, info: map<string, string>): map<string, string>
    decreases |rows|
  {
    if rows == [] then info
    else
      match rows[0]
      case Row(Some(k), Some(v)) => Attributes(rows[1..], info[k := v])
      case _ => info
  }

  predicate WellFormed(row: Row)
  {
    row.key.Some? && row.value.Some?
  }

  /** The rows read before the first one with a missing cell, as (key, value) pairs. */
  function ReadRows(rows: seq<Row>): (pairs: seq<(string, string)>)
    ensures |pairs| <= |rows|
    decreases |rows|
  {
    if rows != [] && WellFormed(rows[0]) then
      [(rows[0].key.value, rows[0].value.value)] + ReadRows(rows[1..])
    else []
  }

  /** The pairs read are exactly the rows before the first one with a missing cell. */
  lemma {:induction false} ReadRowsExact(rows: seq<Row>)
    ensures var pairs := ReadRows(rows);
      && (forall k :: 0 <= k < |pairs| ==> rows[k] == Row(Some(pairs[k].0), Some(pairs[k].1)))
      && (|pairs| < |rows| ==> !WellFormed(rows[|pairs|]))
    decreases |rows|
  {
    if rows != [] && WellFormed(rows[0]) {
      ReadRowsExact(rows[1..]);
      var pairs := ReadRows(rows);
      var tail := ReadRows(rows[1..]);
      assert pairs == [(rows[0].key.value, rows[0].value.value)] + tail;
      forall k | 0 <= k < |pairs| ensures rows[k] == Row(Some(pairs[k].0), Some(pairs[k].1)) {
        if k > 0 {
          assert pairs[k] == tail[k - 1] && rows[k] == rows[1..][k - 1];
        }
      }
    }
  }

  /** The value of the last pair with key `key`, if any. */
  function LastValue(pairs: seq<(string, string)>, key: string): Option<string>
    decreases |pairs|
  {
    if pairs == [] then None
    else if pairs[|pairs| - 1].0 == key then Some(pairs[|pairs| - 1].1)
    else LastValue(pairs[..|pairs| - 1], key)
  }

  lemma {:induction false} LastValuePrepend(p: (string, string), pairs: seq<(string, string)>, key: string)
    ensures LastValue([p] + pairs, key)
      == if LastValue(pairs, key).Some? then LastValue(pairs, key)
         else if p.0 == key then Some(p.1) else None
    decreases |pairs|
  {
    if pairs != [] {
      assert ([p] + pairs)[..|[p] + pairs| - 1] == [p] + pairs[..|pairs| - 1];
      LastValuePrepend(p, pairs[..|pairs| - 1], key);
    }
  }

  /** The dictionary holds, for each key, the value of the LAST row read with that key;
      keys no row read carries keep their value from the starting dictionary. */
  lemma {:induction false} AttributesLastValue(rows: seq<Row>, info: map<string, string>, key: string)
    ensures key in Attributes(rows, info) <==> LastValue(ReadRows(rows), key).Some? || key in info
    ensures LastValue(ReadRows(rows), key).Some? ==>
      Attributes(rows, info)[key] == LastValue(ReadRows(rows), key).value
    ensures LastValue(ReadRows(rows), key).None? && key in info ==>
      Attributes(rows, info)[key] == info[key]
    decreases |rows|
  {
    if rows != [] && WellFormed(rows[0]) {
      var p := (rows[0].key.value, rows[0].value.value);
      AttributesLastValue(rows[1..], info[p.0 := p.1], key);
      LastValuePrepend(p, ReadRows(rows[1..]), key);
    }
  }

  /** `info.get(key, '')`. */
  function Get(info: map<string, string>, key: string): string
  {
    if key in info then info[key] else ""
  }

  /** The value of a looked-up element, or `''` when the lookup raised. */
  function OrEmpty(s: Option<string>): string
  {
    match s
    case Some(v) => v
    case None => ""
  }

  /** The value of the last table row read with key `key`, or `''`. */
  function AttributeOrEmpty(rows: seq<Row>, key: string): string
  {
    OrEmpty(LastValue(ReadRows(rows), key))
  }

  /** The `all_books.append({...})` of one item: `availability` is stripped, the other
      texts are taken as they are. */
  function BuildRecord(d: Detail, url: string): Record
  {
    var info := Attributes(d.rows, map[]);
    Record(
      OrEmpty(d.title),
      OrEmpty(d.price),
      match d.availability case Some(a) => Strip(a) case None => "",
      OrEmpty(d.description),
      Get(info, UpcKey),
      Get(info, ProductTypeKey),
      Get(info, PriceExclTaxKey),
      Get(info, PriceInclTaxKey),
      Get(info, TaxKey),
      Get(info, NumReviewsKey),
      url)
  }

  lemma AttributeFromRows(rows: seq<Row>, key: string)
    ensures Get(Attributes(rows, map[]), key) == AttributeOrEmpty(rows, key)
  {
    AttributesLastValue(rows, map[], key);
  }

  /** Every attribute field of the record is the value of the last row read with its key,
      or `''` when no such row was read; a failed lookup of a plain field gives `''`. */
  lemma RecordFields(d: Detail, url: string)
    ensures var r := BuildRecord(d, url);
      && r.title == OrEmpty(d.title)
      && r.price == OrEmpty(d.price)
      && (d.availability.None? ==> r.availability == "")
      && (d.availability.Some? ==> r.availability == Strip(d.availability.value))
      && r.description == OrEmpty(d.description)
      && r.upc == AttributeOrEmpty(d.rows, UpcKey)
      && r.productType == AttributeOrEmpty(d.rows, ProductTypeKey)
      && r.priceExclTax == AttributeOrEmpty(d.rows, PriceExclTaxKey)
      && r.priceInclTax == AttributeOrEmpty(d.rows, PriceInclTaxKey)
      && r.tax == AttributeOrEmpty(d.rows, TaxKey)
      && r.numReviews == AttributeOrEmpty(d.rows, NumReviewsKey)
      && r.url == url
  {
    forall key | key in AttributeKeys {
      AttributeFromRows(d.rows, key);
    }
    AttributeFromRows(d.rows, UpcKey);
    AttributeFromRows(d.rows, ProductTypeKey);
    AttributeFromRows(d.rows, PriceExclTaxKey);
    AttributeFromRows(d.rows, PriceInclTaxKey);
    AttributeFromRows(d.rows, TaxKey);
    AttributeFromRows(d.rows, NumReviewsKey);
  }

  lemma {:induction false} LastValueSkip(a: seq<(string, string)>, p: (string, string), b: seq<(string, string)>, key: string)
    requires p.0 != key
    ensures LastValue(a + [p] + b, key) == LastValue(a + b, key)
    decreases |b|
  {
    if b == [] {
      assert (a + [p] + b)[..|a + [p] + b| - 1] == a;
      assert a + b == a;
    } else {
      assert (a + [p] + b)[..|a + [p] + b| - 1] == a + [p] + b[..|b| - 1];
      assert (a + b)[..|a + b| - 1] == a + b[..|b| - 1];
      LastValueSkip(a, p, b[..|b| - 1], key);
    }
  }

  /** Reading a table whose first row is complete reads that row, then the rest. */
  lemma {:induction false} ReadRowsCons(first: Row, rest: seq<Row>)
    requires WellFormed(first)
    ensures ReadRows([first] + rest) == [(first.key.value, first.value.value)] + ReadRows(rest)
  {
    assert ([first] + rest)[1..] == rest;
  }

  /** Inserting behind the first row is inserting into the rest. */
  lemma {:induction false} InsertBehindFirst<T>(xs: seq<T>, i: nat, x: T)
    requires 0 < i <= |xs|
    ensures xs[..i] + [x] + xs[i..] == [xs[0]] + (xs[1..][..i - 1] + [x] + xs[1..][i - 1..])
  {
    assert xs[..i] == [xs[0]] + xs[1..][..i - 1];
    assert xs[i..] == xs[1..][i - 1..];
  }

  /** Inserting into the tail of `[p] + ys` is inserting into `[p] + ys` one place later. */
  lemma {:induction false} InsertIntoTail<T>(p: T, ys: seq<T>, i: nat, x: T)
    requires 0 < i <= |ys| + 1
    ensures [p] + (ys[..i - 1] + [x] + ys[i - 1..]) == ([p] + ys)[..i] + [x] + ([p] + ys)[i..]
  {
    assert ([p] + ys)[..i] == [p] + ys[..i - 1];
    assert ([p] + ys)[i..] == ys[i - 1..];
  }

  lemma {:induction false} ReadRowsInsert(rows: seq<Row>, i: nat, row: Row)
    requires i <= |ReadRows(rows)| && WellFormed(row)
    ensures ReadRows(rows[..i] + [row] + rows[i..])
      == ReadRows(rows)[..i] + [(row.key.value, row.value.value)] + ReadRows(rows)[i..]
    decreases i
  {
    var q := (row.key.value, row.value.value);
    if i == 0 {
      assert rows[..0] + [row] + rows[0..] == [row] + rows;
      ReadRowsCons(row, rows);
    } else {
      assert rows != [] && WellFormed(rows[0]);
      var first, rest := rows[0], rows[1..];
      var p0 := (first.key.value, first.value.value);
      var tail := ReadRows(rest);
      assert ReadRows(rows) == [p0] + tail by {
        assert rows == [first] + rest;
        ReadRowsCons(first, rest);
      }
      var inner := rest[..i - 1] + [row] + rest[i - 1..];
      InsertBehindFirst(rows, i, row);
      ReadRowsCons(first, inner);
      ReadRowsInsert(rest, i - 1, row);
      InsertIntoTail(p0, tail, i, q);
    }
  }

  /** A table row whose key is not one of the six attribute keys has no effect on the
      record, wherever it is inserted among the rows read. */
  lemma UnknownRowIgnored(d: Detail, url: string, i: nat, k: string, v: string)
    requires k !in AttributeKeys
    requires i <= |ReadRows(d.rows)|
    ensures BuildRecord(d.(rows := d.rows[..i] + [Row(Some(k), Some(v))] + d.rows[i..]), url)
      == BuildRecord(d, url)
  {
    var row := Row(Some(k), Some(v));
    var d' := d.(rows := d.rows[..i] + [row] + d.rows[i..]);
    var pairs := ReadRows(d.rows);
    ReadRowsInsert(d.rows, i, row);
    assert pairs == pairs[..i] + pairs[i..];
    forall key | key in AttributeKeys
      ensures AttributeOrEmpty(d'.rows, key) == AttributeOrEmpty(d.rows, key)
    {
      LastValueSkip(pairs[..i], (k, v), pairs[i..], key);
    }
    RecordFields(d, url);
    RecordFields(d', url);
  }
}
