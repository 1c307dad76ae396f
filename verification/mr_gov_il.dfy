/**
 * The adapter for the government procurement site mr.gov.il: its listing
 * URLs, how it reads one `.tender-item`, how it shapes a tender's detail
 * page, and the enrichment keyed on the `url` field.
 */
module MrGovIl {
  import opened Wrappers
  import opened Strings
  import opened Values
  import opened Scraping

  const SearchUrl := "https://mr.gov.il/ilgstorefront/he/search/?s=TENDER&text=%D7%A0%D7%92%D7%A8%D7%95%D7%AA+%D7%A2%D7%A5"
  const Origin := "https://mr.gov.il"
  const Source := "mr.gov.il"

  /** Every page, the first included, carries an explicit `&page=N`. */
  function PageUrl(n: int): (u: string)
    ensures StartsWith(u, SearchUrl)
  {
    SearchUrl + "&page=" + IntToString(n)
  }

  /** Different pages are different URLs. */
  lemma PageUrlInjective(n: int, m: int)
    ensures PageUrl(n) == PageUrl(m) ==> n == m
  {
    if PageUrl(n) == PageUrl(m) {
      var p := SearchUrl + "&page=";
      assert IntToString(n) == PageUrl(n)[|p|..];
      assert IntToString(m) == PageUrl(m)[|p|..];
      IntRoundTrip(n);
      IntRoundTrip(m);
    }
  }

  // ---------------------------------------------------------------------
  // Listing pages
  // ---------------------------------------------------------------------

  /**
   * One `.tender-item`: its `a.tender-title` link and the raw text of its
   * publisher, status, publication-date and submission-date elements.
   */
  datatype Item = Item(
    titleLink: Option<Link>,
    publisher: Option<string>,
    status: Option<string>,
    publishDate: Option<string>,
    submissionDate: Option<string>)

  datatype ListingPage = ListingPage(items: seq<Item>, next: Option<NextLink>)

  /** The loop goes on only past a next link that is not marked `disabled`. */
  function View(p: ListingPage): (l: Listing<Item>)
    ensures l.elements == p.items
    ensures l.hasNext <==> p.next.Some? && "disabled" !in p.next.value.classes
  {
    Listing(p.items, NextEnabled(p.next))
  }

  const ListingKeys: set<string> :=
    {"id", "title", "url", "publisher", "status", "publish_date", "submission_date", "source", "scrape_date"}

  /** The item dictionary, field by field. */
  function ItemRecord(url: string, title: string, publisher: Value, status: Value, publishDate: Value,
                      submissionDate: Value, now: string): (r: Record)
    ensures r.Keys == ListingKeys
    ensures r["id"] == IdFromUrl(url) && r["title"] == Str(title) && r["url"] == Str(url)
    ensures r["publisher"] == publisher && r["status"] == status
    ensures r["publish_date"] == publishDate && r["submission_date"] == submissionDate
    ensures r["source"] == Str(Source) && r["scrape_date"] == Str(now)
  {
    map[
      "id" := IdFromUrl(url),
      "title" := Str(title),
      "url" := Str(url),
      "publisher" := publisher,
      "status" := status,
      "publish_date" := publishDate,
      "submission_date" := submissionDate,
      "source" := Str(Source),
      "scrape_date" := Str(now)]
  }

  /** `_parse_tender_element`; `now` is the formatted scrape time. */
  function ParseItem(e: Item, now: string): (r: Option<Record>)
    ensures r.None? <==> e.titleLink.None?
  {
    match e.titleLink
    case None => None
    case Some(link) =>
      var url := Absolutize(link.href, Origin);
      Some(ItemRecord(url, Strip(link.text), TextOr(e.publisher), TextOr(e.status), TextOr(e.publishDate),
                      TextOr(e.submissionDate), now))
  }

  /** A parsed item has exactly the listing keys, with the site as source and the scrape time. */
  lemma ParseItemKeys(e: Item, now: string)
    requires e.titleLink.Some?
    ensures var r := ParseItem(e, now).value;
      r.Keys == ListingKeys && r["source"] == Str(Source) && r["scrape_date"] == Str(now)
  {
  }

  /**
   * A parsed item's URL is absolute or empty, its id is the URL's last
   * segment, its title the link text; it is enriched exactly when its link
   * had an href.
   */
  lemma ParseItemLink(e: Item, now: string)
    requires e.titleLink.Some?
    ensures var r := ParseItem(e, now).value;
      && r["url"].Str? && AbsoluteOrEmpty(r["url"].s)
      && r["id"] == IdFromUrl(r["url"].s)
      && r["title"] == Str(Strip(e.titleLink.value.text))
      && (HasTruthy(r, "url") <==> e.titleLink.value.href != "")
  {
    var link := e.titleLink.value;
    var url := Absolutize(link.href, Origin);
    AbsolutizeAbsolute(link.href, Origin);
  }

  function ListingAdapter(now: string): Adapter<ListingPage, Item> {
    Adapter(PageUrl, View, (e: Item) => ParseItem(e, now))
  }

  /** `fetch_search_results(page, max_pages)` against a site answering each URL. */
  function FetchSearchResults(site: string -> Response<ListingPage>, page: int, maxPages: int, now: string): Crawl {
    Paginate(ListingAdapter(now), site, page, maxPages)
  }

  /**
   * Without ignored replies the crawl ends, requests each page at most once
   * (distinct URLs), at most `maxPages - page + 1` of them, and returns what
   * those pages yielded in order.
   */
  lemma FetchSearchResultsSpec(site: string -> Response<ListingPage>, page: int, maxPages: int, now: string)
    requires NoIgnoredReplies(ListingAdapter(now), site, page, maxPages)
    ensures var c := FetchSearchResults(site, page, maxPages, now);
      && c.Done?
      && |c.requested| <= (if maxPages < page then 0 else maxPages - page + 1)
      && (forall i, j :: 0 <= i < j < |c.requested| ==> PageUrl(c.requested[i]) != PageUrl(c.requested[j]))
      && c.tenders == YieldOf(ListingAdapter(now), site, c.requested)
  {
    var a := ListingAdapter(now);
    PaginateTerminates(a, site, page, maxPages);
    PaginateCollects(a, site, page, maxPages);
    var c := FetchSearchResults(site, page, maxPages, now);
    forall i, j | 0 <= i < j < |c.requested| ensures PageUrl(c.requested[i]) != PageUrl(c.requested[j]) {
      PageUrlInjective(c.requested[i], c.requested[j]);
    }
  }

  // ---------------------------------------------------------------------
  // Detail pages and enrichment
  // ---------------------------------------------------------------------

  /**
   * A tender's own page: `h1.tender-title`, `.publisher-details`, the
   * document items (each with its link, if any), the category names and the
   * `.contact-details` block.
   */
  datatype DetailPage = DetailPage(
    title: Option<string>,
    publisherDetails: Option<string>,
    documents: seq<Option<Link>>,
    categories: seq<string>,
    contact: Option<ContactBlock>)

  const DetailKeys: set<string> := {"title", "publisher_details", "documents", "categories", "contact"}

  /** The dictionary `fetch_tender_details` builds from a page it got. */
  function Shape(p: DetailPage): (d: Record)
    ensures d.Keys <= DetailKeys
  {
    var r := PutText(PutText(map[], "title", p.title), "publisher_details", p.publisherDetails);
    var r := PutList(r, "documents", DocumentList(p.documents, Some(Origin)));
    var r := PutList(r, "categories", CategoryList(p.categories));
    PutContact(r, p.contact)
  }

  /** The keys of a shaped page, by what the page had. */
  lemma ShapeKeys(p: DetailPage)
    ensures Shape(p).Keys == (if p.title.Some? then {"title"} else {})
                           + (if p.publisherDetails.Some? then {"publisher_details"} else {})
                           + (if DocumentList(p.documents, Some(Origin)) != [] then {"documents"} else {})
                           + (if CategoryList(p.categories) != [] then {"categories"} else {})
                           + (if HasContact(p.contact) then {"contact"} else {})
  {
  }

  /** Each detail key is present exactly when the page had something for it. */
  lemma ShapeSpec(p: DetailPage)
    ensures var d := Shape(p);
      && ("title" in d <==> p.title.Some?)
      && ("publisher_details" in d <==> p.publisherDetails.Some?)
      && ("documents" in d <==> exists i :: 0 <= i < |p.documents| && p.documents[i].Some?)
      && ("categories" in d <==> exists i :: 0 <= i < |p.categories| && Strip(p.categories[i]) != "")
      && ("contact" in d <==> HasContact(p.contact))
  {
    var d := Shape(p);
    var docs := DocumentList(p.documents, Some(Origin));
    var cats := CategoryList(p.categories);
    assert ("title" in d <==> p.title.Some?) && ("publisher_details" in d <==> p.publisherDetails.Some?)
        && ("documents" in d <==> docs != []) && ("categories" in d <==> cats != [])
        && ("contact" in d <==> HasContact(p.contact)) by {
      ShapeKeys(p);
    }
    DocumentsPresent(p.documents, Some(Origin));
    CategoriesPresent(p.categories);
  }

  function FetchDetails(site: string -> Response<DetailPage>, url: string): (d: Record)
    ensures d.Keys <= DetailKeys
  {
    DetailsOf(site(url), Shape)
  }

  /** The details for a record's `url` value. */
  function Fetcher(site: string -> Response<DetailPage>): Value -> Record {
    (v: Value) => if v.Str? then FetchDetails(site, v.s) else map[]
  }

  /** `enrich_tenders_with_details`: records with a truthy `url` get their page's details. */
  function EnrichTenders(ts: seq<Record>, maxTenders: Option<int>, site: string -> Response<DetailPage>): (out: seq<Record>)
    ensures |out| <= |ts|
  {
    EnrichSpec(ts, maxTenders, "url", Fetcher(site));
    Enrich(ts, maxTenders, "url", Fetcher(site))
  }

  /**
   * Enrichment keeps every listing field but the title: id, url, status,
   * dates, source and scrape time survive, while the title may be replaced
   * by the detail page's heading.
   */
  lemma EnrichKeepsListing(ts: seq<Record>, maxTenders: Option<int>, site: string -> Response<DetailPage>)
    ensures var out := EnrichTenders(ts, maxTenders, site);
      forall i, k :: 0 <= i < |out| && k in ts[i] && k in ListingKeys - {"title"} ==> k in out[i] && out[i][k] == ts[i][k]
  {
    assert forall v :: Fetcher(site)(v).Keys <= DetailKeys;
    EnrichKeepsOtherFields(ts, maxTenders, "url", Fetcher(site), DetailKeys);
    assert forall k :: k in ListingKeys - {"title"} ==> k !in DetailKeys;
  }
}
