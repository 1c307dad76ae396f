/**
 * The adapter for the tender aggregator wizbiz.co.il: its listing pages are
 * tables whose rows carry the tender's fields cell by cell; detail pages
 * are fetched through each row's `details_url`, and document links there
 * are kept exactly as the page gives them.
 */
module Wizbiz {
  import opened Wrappers
  import opened Strings
  import opened Values
  import opened Scraping

  const SearchUrl := "https://wizbiz.co.il/%D7%9E%D7%9B%D7%A8%D7%96%D7%99-%D7%A2%D7%91%D7%95%D7%93%D7%95%D7%AA-%D7%A0%D7%92%D7%A8%D7%95%D7%AA/"
  const Source := "wizbiz.co.il"

  /** Pages after the first live under `page/N/`; the first page is the search URL itself. */
  function PageUrl(n: int): (u: string)
    ensures n <= 1 ==> u == SearchUrl
    ensures n > 1 ==> StartsWith(u, SearchUrl) && |u| > |SearchUrl|
  {
    if n > 1 then SearchUrl + "page/" + IntToString(n) + "/" else SearchUrl
  }

  /** Pages from 1 on are different URLs. */
  lemma PageUrlInjective(n: int, m: int)
    requires n >= 1 && m >= 1
    ensures PageUrl(n) == PageUrl(m) ==> n == m
  {
    if PageUrl(n) == PageUrl(m) && n > 1 && m > 1 {
      var p := SearchUrl + "page/";
      var u := PageUrl(n);
      assert IntToString(n) == u[|p|..|u| - 1];
      assert IntToString(m) == PageUrl(m)[|p|..|u| - 1];
      IntRoundTrip(n);
      IntRoundTrip(m);
    }
  }

  /** Page 0 and below name the first page: a crawl started at 0 requests it twice. */
  lemma FirstPageAliases()
    ensures PageUrl(0) == PageUrl(1) == SearchUrl
  {
  }

  // ---------------------------------------------------------------------
  // Listing pages
  // ---------------------------------------------------------------------

  /** A `td`: its raw text and the first link inside it, if any. */
  datatype Cell = Cell(text: string, link: Option<Link>)

  datatype Row = Row(cells: seq<Cell>)

  /** The `table.tenders-table` body rows (when the table exists) and whether `a.next.page-numbers` exists. */
  datatype ListingPage = ListingPage(table: Option<seq<Row>>, next: bool)

  /** A missing table and an empty one both end the loop. */
  function View(p: ListingPage): (l: Listing<Row>)
    ensures l.elements == [] <==> p.table.None? || p.table.value == []
    ensures l.hasNext == p.next
  {
    Listing(if p.table.Some? then p.table.value else [], p.next)
  }

  const ListingKeys: set<string> := {
    "id", "publish_date", "tender_type", "publisher", "publisher_type", "description",
    "submission_date", "details_url", "source", "scrape_date"}

  function CellText(c: Cell): Value {
    Str(Strip(c.text))
  }

  /** The href of the eighth cell's link, or "" when there is no such cell or link. */
  function DetailsHref(cells: seq<Cell>): string {
    if |cells| > 7 && cells[7].link.Some? then cells[7].link.value.href else ""
  }

  /** The row dictionary, field by field. */
  function RowRecord(id: Value, publishDate: Value, tenderType: Value, publisher: Value, publisherType: Value,
                     description: Value, submissionDate: Value, detailsUrl: string, now: string): (r: Record)
    ensures r.Keys == ListingKeys
    ensures r["id"] == id && r["publish_date"] == publishDate && r["tender_type"] == tenderType
    ensures r["publisher"] == publisher && r["publisher_type"] == publisherType && r["description"] == description
    ensures r["submission_date"] == submissionDate && r["details_url"] == Str(detailsUrl)
    ensures r["source"] == Str(Source) && r["scrape_date"] == Str(now)
  {
    map[
      "id" := id,
      "publish_date" := publishDate,
      "tender_type" := tenderType,
      "publisher" := publisher,
      "publisher_type" := publisherType,
      "description" := description,
      "submission_date" := submissionDate,
      "details_url" := Str(detailsUrl),
      "source" := Str(Source),
      "scrape_date" := Str(now)]
  }

  /** `_parse_tender_row`: rows with fewer than seven cells are skipped. */
  function ParseRow(row: Row, now: string): (r: Option<Record>)
    ensures r.None? <==> |row.cells| < 7
  {
    var c := row.cells;
    if |c| < 7 then None
    else
      Some(RowRecord(CellText(c[0]), CellText(c[1]), CellText(c[2]), CellText(c[3]), CellText(c[4]),
                     CellText(c[5]), CellText(c[6]), DetailsHref(c), now))
  }

  /** A parsed row has exactly the listing keys and carries no title. */
  lemma ParseRowKeys(row: Row, now: string)
    requires |row.cells| >= 7
    ensures var r := ParseRow(row, now).value;
      r.Keys == ListingKeys && "title" !in r && r["source"] == Str(Source) && r["scrape_date"] == Str(now)
  {
    assert "title" !in ListingKeys by {
      assert forall k :: k in ListingKeys ==> |k| != 5;
    }
  }

  /** The first seven cells give id, dates, type, publisher and description in that order. */
  lemma ParseRowCells(row: Row, now: string)
    requires |row.cells| >= 7
    ensures var r := ParseRow(row, now).value;
      var c := row.cells;
      && r["id"] == Str(Strip(c[0].text)) && r["publish_date"] == Str(Strip(c[1].text))
      && r["tender_type"] == Str(Strip(c[2].text)) && r["publisher"] == Str(Strip(c[3].text))
      && r["publisher_type"] == Str(Strip(c[4].text)) && r["description"] == Str(Strip(c[5].text))
      && r["submission_date"] == Str(Strip(c[6].text))
  {
  }

  /**
   * The details link is the eighth cell's href, unprefixed; a row of seven
   * cells has none, and the row is enriched exactly when the href is not empty.
   */
  lemma ParseRowDetails(row: Row, now: string)
    requires |row.cells| >= 7
    ensures var r := ParseRow(row, now).value;
      && r["details_url"] == Str(DetailsHref(row.cells))
      && (|row.cells| == 7 ==> r["details_url"] == Str(""))
      && (HasTruthy(r, "details_url") <==> DetailsHref(row.cells) != "")
  {
    var r := ParseRow(row, now).value;
    var h := DetailsHref(row.cells);
    assert r == RowRecord(CellText(row.cells[0]), CellText(row.cells[1]), CellText(row.cells[2]), CellText(row.cells[3]),
                          CellText(row.cells[4]), CellText(row.cells[5]), CellText(row.cells[6]), h, now);
    assert "details_url" in r && r["details_url"] == Str(h);
    assert HasTruthy(r, "details_url") == Truthy(Str(h));
  }

  function ListingAdapter(now: string): Adapter<ListingPage, Row> {
    Adapter(PageUrl, View, (row: Row) => ParseRow(row, now))
  }

  /** `fetch_search_results(page, max_pages)` against a site answering each URL. */
  function FetchSearchResults(site: string -> Response<ListingPage>, page: int, maxPages: int, now: string): Crawl {
    Paginate(ListingAdapter(now), site, page, maxPages)
  }

  /**
   * Without ignored replies the crawl ends, requests at most
   * `maxPages - page + 1` pages, each URL once when it starts at page 1 or
   * later, and returns what those pages yielded in order.
   */
  lemma FetchSearchResultsSpec(site: string -> Response<ListingPage>, page: int, maxPages: int, now: string)
    requires NoIgnoredReplies(ListingAdapter(now), site, page, maxPages)
    ensures var c := FetchSearchResults(site, page, maxPages, now);
      && c.Done?
      && |c.requested| <= (if maxPages < page then 0 else maxPages - page + 1)
      && (page >= 1 ==> forall i, j :: 0 <= i < j < |c.requested| ==> PageUrl(c.requested[i]) != PageUrl(c.requested[j]))
      && c.tenders == YieldOf(ListingAdapter(now), site, c.requested)
  {
    var a := ListingAdapter(now);
    PaginateTerminates(a, site, page, maxPages);
    PaginateCollects(a, site, page, maxPages);
    var c := FetchSearchResults(site, page, maxPages, now);
    if page >= 1 {
      forall i, j | 0 <= i < j < |c.requested| ensures PageUrl(c.requested[i]) != PageUrl(c.requested[j]) {
        PageUrlInjective(c.requested[i], c.requested[j]);
      }
    }
  }

  // ---------------------------------------------------------------------
  // Detail pages and enrichment
  // ---------------------------------------------------------------------

  /**
   * A tender's own page: `h1.tender-title`, `.tender-description`, the
   * `.contact-details` block and the document items.
   */
  datatype DetailPage = DetailPage(
    title: Option<string>,
    description: Option<string>,
    contact: Option<ContactBlock>,
    documents: seq<Option<Link>>)

  const DetailKeys: set<string> := {"title", "full_description", "contact", "documents"}

  /** The dictionary `fetch_tender_details` builds from a page it got. */
  function Shape(p: DetailPage): (d: Record)
    ensures d.Keys <= DetailKeys
  {
    var r := PutText(PutText(map[], "title", p.title), "full_description", p.description);
    var r := PutContact(r, p.contact);
    PutList(r, "documents", DocumentList(p.documents, None))
  }

  lemma ShapeKeys(p: DetailPage)
    ensures Shape(p).Keys == (if p.title.Some? then {"title"} else {})
                           + (if p.description.Some? then {"full_description"} else {})
                           + (if HasContact(p.contact) then {"contact"} else {})
                           + (if DocumentList(p.documents, None) != [] then {"documents"} else {})
  {
  }

  /** Each detail key is present exactly when the page had something for it. */
  lemma ShapeSpec(p: DetailPage)
    ensures var d := Shape(p);
      && ("title" in d <==> p.title.Some?)
      && ("full_description" in d <==> p.description.Some?)
      && ("contact" in d <==> HasContact(p.contact))
      && ("documents" in d <==> exists i :: 0 <= i < |p.documents| && p.documents[i].Some?)
  {
    var d := Shape(p);
    var docs := DocumentList(p.documents, None);
    assert ("title" in d <==> p.title.Some?) && ("full_description" in d <==> p.description.Some?)
        && ("contact" in d <==> HasContact(p.contact)) && ("documents" in d <==> docs != []) by {
      ShapeKeys(p);
    }
    DocumentsPresent(p.documents, None);
  }

  /** An empty link is answered with `{}` before any request. */
  function FetchDetails(site: string -> Response<DetailPage>, url: string): (d: Record)
    ensures d.Keys <= DetailKeys
    ensures url == "" ==> d == map[]
  {
    if url == "" then map[] else DetailsOf(site(url), Shape)
  }

  /** The details for a record's `details_url` value. */
  function Fetcher(site: string -> Response<DetailPage>): Value -> Record {
    (v: Value) => if v.Str? then FetchDetails(site, v.s) else map[]
  }

  /** `enrich_tenders_with_details`: records with a truthy `details_url` get their page's details. */
  function EnrichTenders(ts: seq<Record>, maxTenders: Option<int>, site: string -> Response<DetailPage>): (out: seq<Record>)
    ensures |out| <= |ts|
  {
    EnrichSpec(ts, maxTenders, "details_url", Fetcher(site));
    Enrich(ts, maxTenders, "details_url", Fetcher(site))
  }

  /**
   * Enrichment keeps every listing field, the short description included;
   * the page's description arrives beside it as `full_description`.
   */
  lemma EnrichKeepsListing(ts: seq<Record>, maxTenders: Option<int>, site: string -> Response<DetailPage>)
    ensures var out := EnrichTenders(ts, maxTenders, site);
      forall i, k :: 0 <= i < |out| && k in ts[i] && k in ListingKeys ==> k in out[i] && out[i][k] == ts[i][k]
  {
    assert forall v :: Fetcher(site)(v).Keys <= DetailKeys;
    EnrichKeepsOtherFields(ts, maxTenders, "details_url", Fetcher(site), DetailKeys);
    assert forall k :: k in ListingKeys ==> k !in DetailKeys;
  }
}
