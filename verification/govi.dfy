/**
 * The adapter for the tender site govi.co.il: listing items whose title
 * link may be missing (the item is then kept with "not stated" fields),
 * links made absolute against the site's origin, and detail pages with a
 * description, categories, contact block and documents.
 */
module Govi {
  import opened Wrappers
  import opened Strings
  import opened Values
  import opened Scraping

  const SearchUrl := "https://govi.co.il/branch/36"
  /** The base URL "https://govi.co.il/" with its trailing slash stripped. */
  const Origin := "https://govi.co.il"
  const Source := "govi.co.il"

  /** Pages after the first add `?page=N`; the first page is the branch URL itself. */
  function PageUrl(n: int): (u: string)
    ensures n <= 1 ==> u == SearchUrl
    ensures n > 1 ==> StartsWith(u, SearchUrl) && |u| > |SearchUrl|
  {
    if n > 1 then SearchUrl + "?page=" + IntToString(n) else SearchUrl
  }

  /** Pages from 1 on are different URLs. */
  lemma PageUrlInjective(n: int, m: int)
    requires n >= 1 && m >= 1
    ensures PageUrl(n) == PageUrl(m) ==> n == m
  {
    if PageUrl(n) == PageUrl(m) && n > 1 && m > 1 {
      var p := SearchUrl + "?page=";
      assert IntToString(n) == PageUrl(n)[|p|..];
      assert IntToString(m) == PageUrl(m)[|p|..];
      IntRoundTrip(n);
      IntRoundTrip(m);
    }
  }

  /** Page 0 and below name the first page: a crawl started at 0 requests it twice. */
  lemma FirstPageAliases()
    ensures PageUrl(0) == PageUrl(1) == SearchUrl
  {
  }

  // ---------------------------------------------------------------------
  // Listing pages
  // ---------------------------------------------------------------------

  /**
   * One `.tender-item`: its `.tender-title a` link and the raw text of its
   * publication-date, publisher and submission-date elements.
   */
  datatype Item = Item(
    titleLink: Option<Link>,
    publishDate: Option<string>,
    publisher: Option<string>,
    submissionDate: Option<string>)

  datatype ListingPage = ListingPage(items: seq<Item>, next: Option<NextLink>)

  /** The loop goes on only past a next link that is not marked `disabled`. */
  function View(p: ListingPage): (l: Listing<Item>)
    ensures l.elements == p.items
    ensures l.hasNext <==> p.next.Some? && "disabled" !in p.next.value.classes
  {
    Listing(p.items, NextEnabled(p.next))
  }

  const ListingKeys: set<string> :=
    {"id", "title", "url", "publish_date", "publisher", "submission_date", "source", "scrape_date"}

  /** The item's link made absolute, or "" without a title link. */
  function ItemUrl(e: Item): string {
    if e.titleLink.Some? then Absolutize(e.titleLink.value.href, Origin) else ""
  }

  /** The item dictionary, field by field. */
  function ItemRecord(url: string, title: string, publishDate: Value, publisher: Value, submissionDate: Value, now: string): (r: Record)
    ensures r.Keys == ListingKeys
    ensures r["id"] == IdFromUrl(url) && r["title"] == Str(title) && r["url"] == Str(url)
    ensures r["publish_date"] == publishDate && r["publisher"] == publisher && r["submission_date"] == submissionDate
    ensures r["source"] == Str(Source) && r["scrape_date"] == Str(now)
  {
    map[
      "id" := IdFromUrl(url),
      "title" := Str(title),
      "url" := Str(url),
      "publish_date" := publishDate,
      "publisher" := publisher,
      "submission_date" := submissionDate,
      "source" := Str(Source),
      "scrape_date" := Str(now)]
  }

  /** `_parse_tender_element`: every item is kept, even one without a title link. */
  function ParseItem(e: Item, now: string): (r: Option<Record>)
    ensures r.Some?
  {
    var title := if e.titleLink.Some? then Strip(e.titleLink.value.text) else NotStated;
    Some(ItemRecord(ItemUrl(e), title, TextOr(e.publishDate), TextOr(e.publisher), TextOr(e.submissionDate), now))
  }

  /** A parsed item has exactly the listing keys, with the site as source and the scrape time. */
  lemma ParseItemKeys(e: Item, now: string)
    ensures var r := ParseItem(e, now).value;
      r.Keys == ListingKeys && r["source"] == Str(Source) && r["scrape_date"] == Str(now)
  {
  }

  /**
   * A parsed item's URL is absolute or empty and its id is the URL's last
   * segment (`None` for no URL); without a title link the title is "not
   * stated" and the id is `None`; it is enriched exactly when its link had
   * an href.
   */
  lemma ParseItemLink(e: Item, now: string)
    ensures var r := ParseItem(e, now).value;
      && r["url"].Str? && AbsoluteOrEmpty(r["url"].s)
      && r["id"] == IdFromUrl(r["url"].s)
      && (e.titleLink.None? ==> r["title"] == Str(NotStated) && r["id"] == Null)
      && (e.titleLink.Some? ==> r["title"] == Str(Strip(e.titleLink.value.text)))
      && (HasTruthy(r, "url") <==> e.titleLink.Some? && e.titleLink.value.href != "")
  {
    if e.titleLink.Some? {
      AbsolutizeAbsolute(e.titleLink.value.href, Origin);
    }
  }

  function ListingAdapter(now: string): Adapter<ListingPage, Item> {
    Adapter(PageUrl, View, (e: Item) => ParseItem(e, now))
  }

  /** `fetch_search_results(page, max_pages)` against a site answering each URL. */
  function FetchSearchResults(site: string -> Response<ListingPage>, page: int, maxPages: int, now: string): Crawl {
    Paginate(ListingAdapter(now), site, page, maxPages)
  }

  /**
   * Without ignored replies the crawl ends, requests at most
   * `maxPages - page + 1` pages, each URL once when it starts at page 1 or
   * later, and returns what those pages yielded in order.
   */
  lemma FetchSearchResultsSpec(site: string -> Response<ListingPage>, page: int, maxPages: int, now: string)
    requires NoIgnoredReplies(ListingAdapter(now), site, page, maxPages)
    ensures var c := FetchSearchResults(site, page, maxPages, now);
      && c.Done?
      && |c.requested| <= (if maxPages < page then 0 else maxPages - page + 1)
      && (page >= 1 ==> forall i, j :: 0 <= i < j < |c.requested| ==> PageUrl(c.requested[i]) != PageUrl(c.requested[j]))
      && c.tenders == YieldOf(ListingAdapter(now), site, c.requested)
  {
    var a := ListingAdapter(now);
    PaginateTerminates(a, site, page, maxPages);
    PaginateCollects(a, site, page, maxPages);
    var c := FetchSearchResults(site, page, maxPages, now);
    if page >= 1 {
      forall i, j | 0 <= i < j < |c.requested| ensures PageUrl(c.requested[i]) != PageUrl(c.requested[j]) {
        PageUrlInjective(c.requested[i], c.requested[j]);
      }
    }
  }

  // ---------------------------------------------------------------------
  // Detail pages and enrichment
  // ---------------------------------------------------------------------

  /**
   * A tender's own page: `.tender-description`, the category names, the
   * `.contact-info` block and the document items.
   */
  datatype DetailPage = DetailPage(
    description: Option<string>,
    categories: seq<string>,
    contact: Option<ContactBlock>,
    documents: seq<Option<Link>>)

  const DetailKeys: set<string> := {"description", "categories", "contact", "documents"}

  /** The dictionary `fetch_tender_details` builds from a page it got. */
  function Shape(p: DetailPage): (d: Record)
    ensures d.Keys <= DetailKeys
  {
    var r := PutText(map[], "description", p.description);
    var r := PutList(r, "categories", CategoryList(p.categories));
    var r := PutContact(r, p.contact);
    PutList(r, "documents", DocumentList(p.documents, Some(Origin)))
  }

  lemma ShapeKeys(p: DetailPage)
    ensures Shape(p).Keys == (if p.description.Some? then {"description"} else {})
                           + (if CategoryList(p.categories) != [] then {"categories"} else {})
                           + (if HasContact(p.contact) then {"contact"} else {})
                           + (if DocumentList(p.documents, Some(Origin)) != [] then {"documents"} else {})
  {
  }

  /** Each detail key is present exactly when the page had something for it. */
  lemma ShapeSpec(p: DetailPage)
    ensures var d := Shape(p);
      && ("description" in d <==> p.description.Some?)
      && ("categories" in d <==> exists i :: 0 <= i < |p.categories| && Strip(p.categories[i]) != "")
      && ("contact" in d <==> HasContact(p.contact))
      && ("documents" in d <==> exists i :: 0 <= i < |p.documents| && p.documents[i].Some?)
  {
    var d := Shape(p);
    var docs := DocumentList(p.documents, Some(Origin));
    var cats := CategoryList(p.categories);
    assert ("description" in d <==> p.description.Some?) && ("categories" in d <==> cats != [])
        && ("contact" in d <==> HasContact(p.contact)) && ("documents" in d <==> docs != []) by {
      ShapeKeys(p);
    }
    DocumentsPresent(p.documents, Some(Origin));
    CategoriesPresent(p.categories);
  }

  function FetchDetails(site: string -> Response<DetailPage>, url: string): (d: Record)
    ensures d.Keys <= DetailKeys
  {
    DetailsOf(site(url), Shape)
  }

  /** The details for a record's `url` value. */
  function Fetcher(site: string -> Response<DetailPage>): Value -> Record {
    (v: Value) => if v.Str? then FetchDetails(site, v.s) else map[]
  }

  /** `enrich_tenders_with_details`: records with a truthy `url` get their page's details. */
  function EnrichTenders(ts: seq<Record>, maxTenders: Option<int>, site: string -> Response<DetailPage>): (out: seq<Record>)
    ensures |out| <= |ts|
  {
    EnrichSpec(ts, maxTenders, "url", Fetcher(site));
    Enrich(ts, maxTenders, "url", Fetcher(site))
  }

  /** Enrichment keeps every listing field: the detail page only adds keys the listing lacks. */
  lemma EnrichKeepsListing(ts: seq<Record>, maxTenders: Option<int>, site: string -> Response<DetailPage>)
    ensures var out := EnrichTenders(ts, maxTenders, site);
      forall i, k :: 0 <= i < |out| && k in ts[i] && k in ListingKeys ==> k in out[i] && out[i][k] == ts[i][k]
  {
    assert forall v :: Fetcher(site)(v).Keys <= DetailKeys;
    EnrichKeepsOtherFields(ts, maxTenders, "url", Fetcher(site), DetailKeys);
    assert forall k :: k in ListingKeys ==> k !in DetailKeys;
  }
}
