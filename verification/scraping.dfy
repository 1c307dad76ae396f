/**
 * What the three site adapters (the scrapers directory) share: the reply of
 * one `requests.get`, the page-by-page listing loop of
 * `fetch_search_results`, turning relative links absolute, and the bounded
 * enrichment of `enrich_tenders_with_details`.
 */
module Scraping {
  import opened Wrappers
  import opened Strings
  import opened Values

  // ---------------------------------------------------------------------
  // HTTP replies
  // ---------------------------------------------------------------------

  /**
   * The result of one request: it raised a `RequestException` (connection
   * error, bad URL, ...), or the server answered with a status and a
   * parsed page.
   */
  datatype Response<P> = Raised | Reply(status: int, page: P)

  /** `raise_for_status()` raises for client and server errors. */
  predicate RaisesForStatus(status: int) {
    400 <= status < 600
  }

  /** A reply the adapters neither use nor reject: the `status_code == 200` test fails silently. */
  predicate Ignored<P>(r: Response<P>) {
    r.Reply? && !RaisesForStatus(r.status) && r.status != 200
  }

  // ---------------------------------------------------------------------
  // Links
  // ---------------------------------------------------------------------

  /** A link element: its `href` (empty when absent) and its raw text, which the parsers strip. */
  datatype Link = Link(href: string, text: string)

  /** Prefix a non-empty link that does not start with `http` with the site's origin. */
  function Absolutize(url: string, origin: string): (r: string)
    ensures url == "" ==> r == ""
    ensures StartsWith(url, "http") ==> r == url
    ensures url != "" && !StartsWith(url, "http") ==> r == origin + url
  {
    if url != "" && !StartsWith(url, "http") then origin + url else url
  }

  /** With an origin that starts with `http`, every non-empty result is absolute. */
  lemma AbsolutizeAbsolute(url: string, origin: string)
    requires StartsWith(origin, "http")
    ensures url != "" ==> StartsWith(Absolutize(url, origin), "http")
    ensures Absolutize(Absolutize(url, origin), origin) == Absolutize(url, origin)
  {
    if url != "" && !StartsWith(url, "http") {
      assert (origin + url)[..4] == origin[..4];
    }
  }

  /** `url.split('/')[-1] if url else None`. */
  function IdFromUrl(url: string): (id: Value)
    ensures url == "" <==> id == Null
    ensures id.Str? ==> '/' !in id.s && |id.s| <= |url| && id.s == url[|url| - |id.s|..]
    ensures id.Str? && |id.s| < |url| ==> url[|url| - |id.s| - 1] == '/'
  {
    if url == "" then Null else Str(LastSegment(url))
  }

  /** The id is the text after the last slash: empty for a trailing slash. */
  lemma IdAfterSlash(prefix: string, seg: string)
    requires '/' !in seg
    ensures IdFromUrl(prefix + "/" + seg) == Str(seg)
    ensures IdFromUrl(prefix + "/") == Str("")
  {
    LastSegmentAfterSlash(prefix, seg);
    LastSegmentAfterSlash(prefix, "");
    assert prefix + "/" + "" == prefix + "/";
  }

  // ---------------------------------------------------------------------
  // The listing loop
  // ---------------------------------------------------------------------

  /** What the loop reads from one listing page: its tender elements and whether to go on. */
  datatype Listing<E> = Listing(elements: seq<E>, hasNext: bool)

  /** A `.pagination .next` element, by its class list. */
  datatype NextLink = NextLink(classes: seq<string>)

  /** `not next_page or 'disabled' in next_page.get('class', [])` is false: there is a usable next link. */
  predicate NextEnabled(next: Option<NextLink>) {
    next.Some? && "disabled" !in next.value.classes
  }

  /**
   * One adapter: how it names page `n`, what it reads from a page, and how
   * it parses one element (`None` when the element is skipped).
   */
  datatype Adapter<!P, !E> = Adapter(pageUrl: int -> string, view: P -> Listing<E>, parse: E -> Option<Record>)

  /**
   * The outcome of `fetch_search_results`: it returns the collected
   * records, having requested the listed pages in that order; or it hangs,
   * re-requesting the same page forever after an ignored reply.
   */
  datatype Crawl = Done(tenders: seq<Record>, requested: seq<int>) | Hangs(page: int)

  /** The records an element list yields, skipping elements the parser rejects. */
  function ParseAll<E>(parse: E -> Option<Record>, es: seq<E>): (rs: seq<Record>)
    ensures |rs| <= |es|
  {
    if |es| == 0 then []
    else (match parse(es[0]) case Some(r) => [r] case None => []) + ParseAll(parse, es[1..])
  }

  /** How page `n`'s request ends the loop, if it does. */
  predicate Stops<P, E>(a: Adapter<P, E>, r: Response<P>) {
    match r
    case Raised => true
    case Reply(status, p) =>
      RaisesForStatus(status) || (status == 200 && (a.view(p).elements == [] || !a.view(p).hasNext))
  }

  /** The records page reply `r` contributes. */
  function PageYield<P, E>(a: Adapter<P, E>, r: Response<P>): seq<Record> {
    if r.Reply? && r.status == 200 then ParseAll(a.parse, a.view(r.page).elements) else []
  }

  /**
   * The `while current_page <= max_pages` loop of `fetch_search_results`,
   * starting at `page`. `site` answers a request for a URL.
   */
  function Paginate<P, E>(a: Adapter<P, E>, site: string -> Response<P>, page: int, maxPages: int): Crawl
    decreases maxPages - page
  {
    if page > maxPages then Done([], [])
    else
      var r := site(a.pageUrl(page));
      if Ignored(r) then Hangs(page)
      else if Stops(a, r) then Done(PageYield(a, r), [page])
      else
        match Paginate(a, site, page + 1, maxPages)
        case Hangs(p) => Hangs(p)
        case Done(rest, pages) => Done(PageYield(a, r) + rest, [page] + pages)
  }

  /** No page the loop may reach gets an ignored reply. */
  predicate NoIgnoredReplies<P, E>(a: Adapter<P, E>, site: string -> Response<P>, page: int, maxPages: int) {
    forall n :: page <= n <= maxPages ==> !Ignored(site(a.pageUrl(n)))
  }

  /** Pages `from`, `from + 1`, ..., in order. */
  predicate Consecutive(pages: seq<int>, from: int) {
    forall i :: 0 <= i < |pages| ==> pages[i] == from + i
  }

  /**
   * Termination and the request bound: when no reachable page gets an
   * ignored reply, the loop finishes and requests consecutive pages from
   * `page` on, at least one and at most `maxPages - page + 1` of them when
   * `page <= maxPages`.
   */
  lemma {:induction false} PaginateTerminates<P, E>(a: Adapter<P, E>, site: string -> Response<P>, page: int, maxPages: int)
    requires NoIgnoredReplies(a, site, page, maxPages)
    ensures Paginate(a, site, page, maxPages).Done?
    ensures Consecutive(Paginate(a, site, page, maxPages).requested, page)
    ensures |Paginate(a, site, page, maxPages).requested| <= (if maxPages < page then 0 else maxPages - page + 1)
    ensures page <= maxPages ==> |Paginate(a, site, page, maxPages).requested| > 0
    decreases maxPages - page
  {
    if page <= maxPages {
      var r := site(a.pageUrl(page));
      if !Stops(a, r) {
        PaginateTerminates(a, site, page + 1, maxPages);
        var pages := Paginate(a, site, page + 1, maxPages).requested;
        assert Paginate(a, site, page, maxPages).requested == [page] + pages;
      }
    }
  }

  /**
   * Every requested page but the last one neither failed nor ended the
   * listing, and the last one did unless it was page `maxPages`.
   */
  lemma {:induction false} PaginateStops<P, E>(a: Adapter<P, E>, site: string -> Response<P>, page: int, maxPages: int)
    requires NoIgnoredReplies(a, site, page, maxPages)
    ensures Paginate(a, site, page, maxPages).Done?
    ensures var pages := Paginate(a, site, page, maxPages).requested;
      && (forall i :: 0 <= i < |pages| - 1 ==> !Stops(a, site(a.pageUrl(pages[i]))))
      && (|pages| > 0 && pages[|pages| - 1] < maxPages ==> Stops(a, site(a.pageUrl(pages[|pages| - 1]))))
    decreases maxPages - page
  {
    if page > maxPages {
      assert Paginate(a, site, page, maxPages) == Done([], []);
    } else if Stops(a, site(a.pageUrl(page))) {
      PaginateLast(a, site, page, maxPages);
    } else {
      NoIgnoredRepliesTail(a, site, page, maxPages);
      PaginateStops(a, site, page + 1, maxPages);
      PaginateTerminates(a, site, page + 1, maxPages);
      PaginateStopsStep(a, site, page, maxPages);
    }
  }

  /** The pages after the first get no ignored reply either. */
  lemma NoIgnoredRepliesTail<P, E>(a: Adapter<P, E>, site: string -> Response<P>, page: int, maxPages: int)
    requires NoIgnoredReplies(a, site, page, maxPages)
    ensures !Ignored(site(a.pageUrl(page))) || page > maxPages
    ensures NoIgnoredReplies(a, site, page + 1, maxPages)
  {
  }

  /** The step case of `PaginateStops`: a first page that does not stop, then the rest of the crawl. */
  lemma PaginateStopsStep<P, E>(a: Adapter<P, E>, site: string -> Response<P>, page: int, maxPages: int)
    requires page <= maxPages && !Ignored(site(a.pageUrl(page))) && !Stops(a, site(a.pageUrl(page)))
    requires Paginate(a, site, page + 1, maxPages).Done?
    requires page + 1 <= maxPages ==> |Paginate(a, site, page + 1, maxPages).requested| > 0
    requires var rest := Paginate(a, site, page + 1, maxPages).requested;
      && (forall i :: 0 <= i < |rest| - 1 ==> !Stops(a, site(a.pageUrl(rest[i]))))
      && (|rest| > 0 && rest[|rest| - 1] < maxPages ==> Stops(a, site(a.pageUrl(rest[|rest| - 1]))))
    ensures Paginate(a, site, page, maxPages).Done?
    ensures var pages := Paginate(a, site, page, maxPages).requested;
      && (forall i :: 0 <= i < |pages| - 1 ==> !Stops(a, site(a.pageUrl(pages[i]))))
      && (|pages| > 0 && pages[|pages| - 1] < maxPages ==> Stops(a, site(a.pageUrl(pages[|pages| - 1]))))
  {
    PaginateStep(a, site, page, maxPages);
    StopsOnlyLastCons(a, site, page, Paginate(a, site, page + 1, maxPages).requested, maxPages);
  }

  /** A page that stops the loop is the last one requested. */
  lemma PaginateLast<P, E>(a: Adapter<P, E>, site: string -> Response<P>, page: int, maxPages: int)
    requires page <= maxPages && !Ignored(site(a.pageUrl(page))) && Stops(a, site(a.pageUrl(page)))
    ensures Paginate(a, site, page, maxPages) == Done(PageYield(a, site(a.pageUrl(page))), [page])
  {
  }

  /** A page that neither stops nor hangs is followed by the rest of the crawl. */
  lemma PaginateStep<P, E>(a: Adapter<P, E>, site: string -> Response<P>, page: int, maxPages: int)
    requires page <= maxPages && !Ignored(site(a.pageUrl(page))) && !Stops(a, site(a.pageUrl(page)))
    requires Paginate(a, site, page + 1, maxPages).Done?
    ensures Paginate(a, site, page, maxPages).Done?
    ensures Paginate(a, site, page, maxPages).requested == [page] + Paginate(a, site, page + 1, maxPages).requested
  {
  }

  /** Prepending a page that does not stop keeps "only the last page stops". */
  lemma StopsOnlyLastCons<P, E>(a: Adapter<P, E>, site: string -> Response<P>, page: int, rest: seq<int>, maxPages: int)
    requires !Stops(a, site(a.pageUrl(page)))
    requires forall i :: 0 <= i < |rest| - 1 ==> !Stops(a, site(a.pageUrl(rest[i])))
    requires |rest| > 0 && rest[|rest| - 1] < maxPages ==> Stops(a, site(a.pageUrl(rest[|rest| - 1])))
    requires |rest| > 0 || page == maxPages
    ensures var pages := [page] + rest;
      && (forall i :: 0 <= i < |pages| - 1 ==> !Stops(a, site(a.pageUrl(pages[i]))))
      && (pages[|pages| - 1] < maxPages ==> Stops(a, site(a.pageUrl(pages[|pages| - 1]))))
  {
    var pages := [page] + rest;
    forall i | 0 <= i < |pages| - 1 ensures !Stops(a, site(a.pageUrl(pages[i]))) {
      if i > 0 {
        assert pages[i] == rest[i - 1];
      }
    }
    if rest != [] {
      assert pages[|pages| - 1] == rest[|rest| - 1];
    }
  }

  /** The records returned are, in order, what the requested pages yielded. */
  function YieldOf<P, E>(a: Adapter<P, E>, site: string -> Response<P>, pages: seq<int>): seq<Record> {
    if |pages| == 0 then [] else PageYield(a, site(a.pageUrl(pages[0]))) + YieldOf(a, site, pages[1..])
  }

  lemma {:induction false} PaginateCollects<P, E>(a: Adapter<P, E>, site: string -> Response<P>, page: int, maxPages: int)
    requires Paginate(a, site, page, maxPages).Done?
    ensures var c := Paginate(a, site, page, maxPages);
            c.tenders == YieldOf(a, site, c.requested)
    decreases maxPages - page
  {
    if page <= maxPages {
      var r := site(a.pageUrl(page));
      if !Stops(a, r) {
        PaginateCollects(a, site, page + 1, maxPages);
        var c := Paginate(a, site, page + 1, maxPages);
        assert ([page] + c.requested)[1..] == c.requested;
      }
    }
  }

  /** An ignored reply at the first page makes the loop request that page forever. */
  lemma IgnoredReplyHangs<P, E>(a: Adapter<P, E>, site: string -> Response<P>, page: int, maxPages: int)
    requires page <= maxPages && Ignored(site(a.pageUrl(page)))
    ensures Paginate(a, site, page, maxPages) == Hangs(page)
  {
  }

  // ---------------------------------------------------------------------
  // Detail pages
  // ---------------------------------------------------------------------

  /**
   * `fetch_tender_details` around its page shaping: a request that raised,
   * a 4xx/5xx status or any status other than 200 gives `{}`.
   */
  function DetailsOf<P>(r: Response<P>, shape: P -> Record): (d: Record)
    ensures !(r.Reply? && r.status == 200) ==> d == map[]
    ensures r.Reply? && r.status == 200 ==> d == shape(r.page)
  {
    if r.Reply? && r.status == 200 then shape(r.page) else map[]
  }

  /** Store the stripped text of an element under `k` when the element is present. */
  function PutText(r: Record, k: string, e: Option<string>): (r': Record)
    ensures r'.Keys == if e.Some? then r.Keys + {k} else r.Keys
    ensures forall j :: j in r && j != k ==> r'[j] == r[j]
  {
    if e.Some? then r[k := Str(Strip(e.value))] else r
  }

  /** A listing field: the element's stripped text, or "not stated" when the element is missing. */
  function TextOr(e: Option<string>): (v: Value)
    ensures v.Str?
    ensures e.None? ==> v == Str(NotStated)
    ensures e.Some? ==> v == Str(Strip(e.value))
  {
    Str(if e.Some? then Strip(e.value) else NotStated)
  }

  /** Store a list under `k` only when it is not empty (`if documents: ...`). */
  function PutList(r: Record, k: string, vs: seq<Value>): (r': Record)
    ensures r'.Keys == if vs != [] then r.Keys + {k} else r.Keys
  {
    if vs != [] then r[k := Arr(vs)] else r
  }

  /** Store the contact dictionary only when the block exists and yields an entry. */
  function PutContact(r: Record, c: Option<ContactBlock>): (r': Record)
    ensures r'.Keys == if HasContact(c) then r.Keys + {"contact"} else r.Keys
  {
    ContactPresent(c);
    if c.Some? && ContactInfo(c.value) != map[] then r["contact" := Obj(ContactInfo(c.value))] else r
  }

  /** The contact block exists and holds at least one of its three sub-elements. */
  predicate HasContact(c: Option<ContactBlock>) {
    c.Some? && (c.value.name.Some? || c.value.email.Some? || c.value.phone.Some?)
  }

  lemma ContactPresent(c: Option<ContactBlock>)
    ensures c.Some? ==> (ContactInfo(c.value) != map[] <==> HasContact(c))
  {
    if c.Some? && HasContact(c) {
      var info := ContactInfo(c.value);
      assert "name" in info || "email" in info || "phone" in info;
    }
  }

  /** A contact block: the raw text of its name, e-mail and phone elements, where present. */
  datatype ContactBlock = ContactBlock(name: Option<string>, email: Option<string>, phone: Option<string>)

  /** The `contact_info` dictionary: one entry per sub-element that is present. */
  function ContactInfo(c: ContactBlock): (r: Record)
    ensures r.Keys <= {"name", "email", "phone"}
    ensures ("name" in r <==> c.name.Some?) && ("email" in r <==> c.email.Some?) && ("phone" in r <==> c.phone.Some?)
    ensures c.name.Some? ==> r["name"] == Str(Strip(c.name.value))
    ensures c.email.Some? ==> r["email"] == Str(Strip(c.email.value))
    ensures c.phone.Some? ==> r["phone"] == Str(Strip(c.phone.value))
  {
    PutText(PutText(PutText(map[], "name", c.name), "email", c.email), "phone", c.phone)
  }

  /** The `categories` list: the stripped names that are not empty, in page order. */
  function CategoryList(texts: seq<string>): (cs: seq<Value>)
    ensures |cs| <= |texts|
    ensures forall j :: 0 <= j < |cs| ==> cs[j].Str? && cs[j].s != ""
  {
    if |texts| == 0 then []
    else
      var name := Strip(texts[0]);
      (if name != "" then [Str(name)] else []) + CategoryList(texts[1..])
  }

  /** The list is empty exactly when every name strips to nothing. */
  lemma {:induction false} CategoriesPresent(texts: seq<string>)
    ensures CategoryList(texts) != [] <==> exists i :: 0 <= i < |texts| && Strip(texts[i]) != ""
    decreases |texts|
  {
    if |texts| > 0 {
      CategoriesPresent(texts[1..]);
      if Strip(texts[0]) == "" {
        forall i | 1 <= i < |texts| ensures texts[i] == texts[1..][i - 1] {}
      }
    }
  }

  /**
   * One document entry: the link's stripped text and its href, made
   * absolute against `origin` when the site does that (`None`: verbatim).
   */
  function Document(l: Link, origin: Option<string>): (d: Value)
    ensures DocumentUrl(d) == match origin case Some(o) => Absolutize(l.href, o) case None => l.href
  {
    var url := match origin case Some(o) => Absolutize(l.href, o) case None => l.href;
    Obj(map["name" := Str(Strip(l.text)), "url" := Str(url)])
  }

  /** The links of the document items that hold one, in page order. */
  function Links(items: seq<Option<Link>>): (ls: seq<Link>)
    ensures |ls| <= |items|
  {
    if |items| == 0 then []
    else (match items[0] case Some(l) => [l] case None => []) + Links(items[1..])
  }

  /** Every link listed is the link of an item `i`. */
  lemma {:induction false} LinksFrom(items: seq<Option<Link>>, j: int) returns (i: int)
    requires 0 <= j < |Links(items)|
    ensures 0 <= i < |items| && items[i] == Some(Links(items)[j])
    decreases |items|
  {
    var head: seq<Link> := match items[0] case Some(l) => [l] case None => [];
    assert Links(items) == head + Links(items[1..]);
    if j < |head| {
      i := 0;
    } else {
      var i' := LinksFrom(items[1..], j - |head|);
      i := i' + 1;
    }
  }

  /** The list is empty exactly when no item holds a link. */
  lemma {:induction false} LinksPresent(items: seq<Option<Link>>)
    ensures Links(items) != [] <==> exists i :: 0 <= i < |items| && items[i].Some?
    decreases |items|
  {
    if |items| > 0 {
      LinksPresent(items[1..]);
      if items[0].None? {
        forall i | 1 <= i < |items| ensures items[i] == items[1..][i - 1] {}
      }
    }
  }

  /** The `documents` list: one entry per document item that holds a link, in page order. */
  function DocumentList(items: seq<Option<Link>>, origin: Option<string>): (docs: seq<Value>)
    ensures |docs| == |Links(items)|
  {
    var ls := Links(items);
    seq(|ls|, j requires 0 <= j < |ls| => Document(ls[j], origin))
  }

  /** No documents exactly when no item holds a link. */
  lemma DocumentsPresent(items: seq<Option<Link>>, origin: Option<string>)
    ensures DocumentList(items, origin) != [] <==> exists i :: 0 <= i < |items| && items[i].Some?
  {
    LinksPresent(items);
  }

  /** A link the browser can follow as it stands: empty, or starting with `http`. */
  predicate AbsoluteOrEmpty(u: string) {
    u == "" || StartsWith(u, "http")
  }

  /** The link of document entry `d`. */
  function DocumentUrl(d: Value): string {
    if d.Obj? && "url" in d.fields && d.fields["url"].Str? then d.fields["url"].s else ""
  }

  lemma DocumentAbsolute(l: Link, origin: string)
    requires StartsWith(origin, "http")
    ensures AbsoluteOrEmpty(DocumentUrl(Document(l, Some(origin))))
  {
    AbsolutizeAbsolute(l.href, origin);
  }

  /** With an origin that starts with `http`, every document link is absolute or empty. */
  lemma DocumentUrlsAbsolute(items: seq<Option<Link>>, origin: string)
    requires StartsWith(origin, "http")
    ensures forall j :: 0 <= j < |DocumentList(items, Some(origin))| ==>
              AbsoluteOrEmpty(DocumentUrl(DocumentList(items, Some(origin))[j]))
  {
    var docs := DocumentList(items, Some(origin));
    forall j | 0 <= j < |docs| ensures AbsoluteOrEmpty(DocumentUrl(docs[j])) {
      var i := LinksFrom(items, j);
      DocumentAbsolute(items[i].value, origin);
    }
  }

  /** The hrefs of the document items that hold a link. */
  function Hrefs(items: seq<Option<Link>>): set<string> {
    set i | 0 <= i < |items| && items[i].Some? :: items[i].value.href
  }

  /** With no origin, every document link is an href exactly as the page gave it. */
  lemma DocumentUrlsVerbatim(items: seq<Option<Link>>)
    ensures forall j :: 0 <= j < |DocumentList(items, None)| ==>
              DocumentUrl(DocumentList(items, None)[j]) in Hrefs(items)
  {
    var docs := DocumentList(items, None);
    forall j | 0 <= j < |docs| ensures DocumentUrl(docs[j]) in Hrefs(items) {
      var i := LinksFrom(items, j);
      assert DocumentUrl(docs[j]) == items[i].value.href;
    }
  }

  // ---------------------------------------------------------------------
  // Enrichment
  // ---------------------------------------------------------------------

  /** Python's `n` is truthy: neither `None` nor `0`. */
  predicate Bounded(maxTenders: Option<int>) {
    maxTenders.Some? && maxTenders.value != 0
  }

  /** `tenders[:max_tenders] if max_tenders else tenders`, with Python's slice rules. */
  function Truncate<T>(ts: seq<T>, maxTenders: Option<int>): (r: seq<T>)
    ensures |r| <= |ts| && r == ts[..|r|]
    ensures !Bounded(maxTenders) ==> r == ts
    ensures Bounded(maxTenders) && maxTenders.value > 0 ==>
              |r| == if maxTenders.value < |ts| then maxTenders.value else |ts|
    ensures Bounded(maxTenders) && maxTenders.value < 0 ==>
              |r| == if |ts| + maxTenders.value < 0 then 0 else |ts| + maxTenders.value
  {
    if !Bounded(maxTenders) then ts
    else
      var n := maxTenders.value;
      var end := if n >= 0 then n else |ts| + n;
      if end <= 0 then [] else if end >= |ts| then ts else ts[..end]
  }

  /** `{**tender, **details}`: the details win on shared keys. */
  function Merge(tender: Record, details: Record): (r: Record)
    ensures r.Keys == tender.Keys + details.Keys
    ensures forall k :: k in details ==> r[k] == details[k]
    ensures forall k :: k in tender && k !in details ==> r[k] == tender[k]
  {
    tender + details
  }

  /**
   * `enrich_tenders_with_details`: the first `maxTenders` records, each
   * merged with the details fetched for its `gate` field when that field is
   * present and truthy, and passed through unchanged otherwise.
   */
  function Enrich(ts: seq<Record>, maxTenders: Option<int>, gate: string, fetch: Value -> Record): (out: seq<Record>)
    ensures |out| == |Truncate(ts, maxTenders)|
  {
    var todo := Truncate(ts, maxTenders);
    seq(|todo|, i requires 0 <= i < |todo| =>
      if HasTruthy(todo[i], gate) then Merge(todo[i], fetch(todo[i][gate])) else todo[i])
  }

  /**
   * A field the details never carry keeps the listing's value: details only
   * add or override the keys the site's detail page can produce.
   */
  lemma EnrichKeepsOtherFields(ts: seq<Record>, maxTenders: Option<int>, gate: string, fetch: Value -> Record, detailKeys: set<string>)
    requires forall v :: fetch(v).Keys <= detailKeys
    ensures var out := Enrich(ts, maxTenders, gate, fetch);
      forall i, k :: 0 <= i < |out| && k in ts[i] && k !in detailKeys ==> k in out[i] && out[i][k] == ts[i][k]
  {
    EnrichSpec(ts, maxTenders, gate, fetch);
  }

  /**
   * What enrichment promises record by record: order is kept, records past
   * the bound are dropped, a record without a truthy link passes through,
   * and otherwise the fetched details override the listing's fields.
   */
  lemma EnrichSpec(ts: seq<Record>, maxTenders: Option<int>, gate: string, fetch: Value -> Record)
    ensures var out := Enrich(ts, maxTenders, gate, fetch);
      && |out| <= |ts|
      && (!Bounded(maxTenders) ==> |out| == |ts|)
      && (Bounded(maxTenders) && maxTenders.value > 0 ==>
            |out| == (if maxTenders.value < |ts| then maxTenders.value else |ts|))
      && forall i :: 0 <= i < |out| ==>
           && (!HasTruthy(ts[i], gate) ==> out[i] == ts[i])
           && (HasTruthy(ts[i], gate) ==> out[i] == Merge(ts[i], fetch(ts[i][gate])))
           && (HasTruthy(ts[i], gate) && fetch(ts[i][gate]) == map[] ==> out[i] == ts[i])
  {
    var todo := Truncate(ts, maxTenders);
    var out := Enrich(ts, maxTenders, gate, fetch);
    forall i | 0 <= i < |out| ensures todo[i] == ts[i] {
      assert todo == ts[..|todo|];
    }
    forall i | 0 <= i < |out| && HasTruthy(ts[i], gate) && fetch(ts[i][gate]) == map[]
      ensures out[i] == ts[i]
    {
      assert Merge(ts[i], map[]) == ts[i];
    }
  }
}
