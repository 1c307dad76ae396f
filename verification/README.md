# Carpentry tenders: a Dafny model of the collection pipeline

The system gathers public carpentry tenders from three Israeli sites, brings
them into one shape, stores them in SQLite and refreshes them on a schedule.
This project models its core as pure Dafny functions over immutable data:

- `Scraping` (scraping.dfy): what the three site adapters share. It models
  one HTTP reply; the `fetch_search_results` page loop, including how it ends
  and the reply that makes it spin; relative links made absolute; the detail
  dictionaries; and the bounded `enrich_tenders_with_details` merge.
- `MrGovIl`, `Wizbiz`, `Govi` (mr_gov_il.dfy, wizbiz.dfy, govi.dfy): each
  site's page URLs, how one listing element becomes a record, the keys its
  detail page contributes, and which field gates enrichment.
- `UnifiedProcessor` (processor.dfy): collection from the three sources, one
  source failing without stopping the others, the three site models composed
  at `collect_all_tenders`' defaults, standardization into the
  13-field shape, and duplicate removal by the `title_publisher` key, keeping
  the record with the most truthy values.
- `Models` (models.dfy): the data-access layer over an in-memory store of
  maps and id-pair sets. Covered: `create` with its category, contact and
  document side tables; `update`, `get_by_id` and `delete`; the
  category-link and saved-tender join tables; `get_or_create`; `search`
  with its filters, ordering and window; and the SQL `UserModel.update`
  builds.
- `Scheduler` (scheduler.dfy): `run_scraper`/`run_processor`/
  `update_database` against a machine oracle; the gating in
  `refresh_all_tenders`; the log line format; the three daily jobs and the
  next-run text; and the scheduler's entry point.
- `RefreshService` (service.dfy): the PID-file service. Covered:
  start/stop/restart/status against a process-table oracle; reading the last
  refresh time from a log; the manual refresh; and command dispatch.
- `Cloudflare` (cloudflare.dfy): the migration file, the idempotent
  `refresh_logs` schema patch, the idempotent `wrangler.toml` patch, and the
  step order of `main`.
- `Wrappers`, `Strings`, `Values` hold `Option`, the text functions and the
  loosely typed Python values (`Value`, `Record`, truthiness).

I/O is replaced by parameters:
- an HTTP site is a function from URL to reply;
- `json.loads` and dictionary key order are a `Json` oracle;
- subprocess exit codes and the file system are a `Machine`;
- the process table is a set of live PIDs;
- clock readings are strings or seconds passed in.

## Model

| member | source | states |
|---|---|---|
| Scraping.Absolutize | scrapers/mr_gov_il_scraper.py:103-105 | an empty link stays empty, a link starting with `http` is kept, any other is prefixed with the site origin |
| Scraping.AbsolutizeAbsolute | scrapers/govi_scraper.py:103-104 | with an `http` origin every non-empty result is absolute, and making a link absolute twice is the same as once |
| Scraping.IdFromUrl | scrapers/mr_gov_il_scraper.py:107 | the id is `None` exactly for an empty URL, and otherwise the slash-free tail of the URL that follows its last slash |
| Scraping.IdAfterSlash | scrapers/govi_scraper.py:107 | the id of `prefix/seg` is `seg`, and a URL ending in a slash has the empty id |
| Scraping.PaginateTerminates | scrapers/mr_gov_il_scraper.py:46-93 | when no reachable page gets an ignored reply, the loop ends after requesting consecutive pages from `page` on, at least one and at most `max_pages - page + 1` |
| Scraping.PaginateStops | scrapers/wizbiz_scraper.py:51-96 | every requested page but the last went on to the next page, and the last one ended the loop unless it was page `max_pages` |
| Scraping.PaginateCollects | scrapers/govi_scraper.py:73-76 | the records returned are, in order, the parsed records of the pages requested |
| Scraping.IgnoredReplyHangs | scrapers/mr_gov_il_scraper.py:57-86 | a non-error status other than 200 leaves `current_page` unchanged, so the loop requests that page forever |
| Scraping.DetailsOf | scrapers/mr_gov_il_scraper.py:142-217 | a request that raised, or any status other than 200, gives `{}`; a 200 reply gives the shaped page |
| Scraping.TextOr | scrapers/mr_gov_il_scraper.py:111-121 | a missing listing element gives the "not stated" placeholder, a present one its stripped text |
| Scraping.ContactInfo | scrapers/mr_gov_il_scraper.py:195-207 | the contact dictionary has a name, e-mail or phone entry exactly when that sub-element exists, holding its stripped text |
| Scraping.ContactPresent | scrapers/govi_scraper.py:168-185 | the contact dictionary is non-empty exactly when the block holds one of its three sub-elements |
| Scraping.CategoriesPresent | scrapers/mr_gov_il_scraper.py:184-192 | the category list is empty exactly when every category name strips to nothing |
| Scraping.CategoryList | scrapers/govi_scraper.py:157-162 | every category name is non-empty text, and there are never more names than category elements |
| Scraping.DocumentsPresent | scrapers/mr_gov_il_scraper.py:165-181 | the document list is empty exactly when no document item holds a link |
| Scraping.DocumentUrlsAbsolute | scrapers/govi_scraper.py:188-201 | on the sites that prefix document links, every document URL is absolute or empty |
| Scraping.DocumentUrlsVerbatim | scrapers/wizbiz_scraper.py:200-210 | on Wizbiz every document URL is an href exactly as the page gave it |
| Scraping.Truncate | scrapers/mr_gov_il_scraper.py:224 | `tenders[:max_tenders] if max_tenders else tenders` is a prefix of the input: all of it when the bound is `None` or 0, and otherwise as many records as Python's slice keeps for a positive or negative bound |
| Scraping.Merge | scrapers/wizbiz_scraper.py:237 | in `{**tender, **details}` the details win on shared keys and every other listing key is kept |
| Scraping.EnrichSpec | scrapers/mr_gov_il_scraper.py:219-242 | enrichment keeps order and drops records past the bound. A record without a truthy link passes through unchanged, and a record with one is merged with its fetched details |
| Scraping.EnrichKeepsOtherFields | scrapers/govi_scraper.py:223-229 | a field the detail page never produces keeps its listing value after enrichment |
| MrGovIl.PageUrl | scrapers/mr_gov_il_scraper.py:55 | every page URL, page 1 included, extends the search URL |
| MrGovIl.PageUrlInjective | scrapers/mr_gov_il_scraper.py:55 | different page numbers give different URLs |
| MrGovIl.View | scrapers/mr_gov_il_scraper.py:66-82 | the loop goes on only past a next link not marked `disabled` |
| MrGovIl.ParseItem | scrapers/mr_gov_il_scraper.py:99-101 | an item is skipped exactly when it has no `a.tender-title` link |
| MrGovIl.ItemRecord | scrapers/mr_gov_il_scraper.py:124-134 | the record has exactly the nine listing keys: the id derived from the URL, source `mr.gov.il`, and the scrape time |
| MrGovIl.ParseItemKeys | scrapers/mr_gov_il_scraper.py:124-134 | a parsed item has exactly the listing keys, with the site as source and the scrape time |
| MrGovIl.ParseItemLink | scrapers/mr_gov_il_scraper.py:103-108 | the URL is absolute or empty and the id is its last segment. The title is the link text, and the item is enriched exactly when its link had an href |
| MrGovIl.FetchSearchResultsSpec | scrapers/mr_gov_il_scraper.py:46-93 | without ignored replies, the crawl ends within the page budget and requests no URL twice. It returns what the requested pages yielded, in order |
| MrGovIl.ShapeKeys | scrapers/mr_gov_il_scraper.py:152-212 | the detail keys are exactly those for which the page had a title, publisher details, documents, categories or a contact |
| MrGovIl.ShapeSpec | scrapers/mr_gov_il_scraper.py:152-212 | each detail key is present exactly when the page had the element, a linked document item, a non-empty category, or a usable contact block |
| MrGovIl.FetchDetails | scrapers/mr_gov_il_scraper.py:142-217 | the details only ever carry the five detail keys |
| MrGovIl.EnrichTenders | scrapers/mr_gov_il_scraper.py:219-242 | enrichment never lengthens the list |
| MrGovIl.EnrichKeepsListing | scrapers/mr_gov_il_scraper.py:229-235 | every listing field except the title survives enrichment; the page heading may replace the title |
| Wizbiz.PageUrl | scrapers/wizbiz_scraper.py:55 | page 1 and below is the bare search URL; later pages strictly extend it |
| Wizbiz.PageUrlInjective | scrapers/wizbiz_scraper.py:55 | pages from 1 on have distinct URLs |
| Wizbiz.FirstPageAliases | scrapers/wizbiz_scraper.py:55 | pages 0 and 1 request the same URL |
| Wizbiz.View | scrapers/wizbiz_scraper.py:66-88 | a missing table and an empty table both end the loop; the next link alone decides whether it goes on |
| Wizbiz.RowRecord | scrapers/wizbiz_scraper.py:135-146 | the row record has exactly the ten listing keys, with source `wizbiz.co.il` and the scrape time |
| Wizbiz.ParseRow | scrapers/wizbiz_scraper.py:105-107 | a row is skipped exactly when it has fewer than seven cells |
| Wizbiz.ParseRowKeys | scrapers/wizbiz_scraper.py:135-146 | a parsed row has exactly the listing keys and no title |
| Wizbiz.ParseRowCells | scrapers/wizbiz_scraper.py:110-128 | the first seven cells give id, publication date, type, publisher, publisher type, description and submission date, stripped |
| Wizbiz.ParseRowDetails | scrapers/wizbiz_scraper.py:131-132 | the details link is the eighth cell's href, unprefixed. A seven-cell row has none, and a row is enriched exactly when the href is non-empty |
| Wizbiz.FetchSearchResultsSpec | scrapers/wizbiz_scraper.py:46-99 | without ignored replies, the crawl ends within the page budget and, from page 1 on, requests no URL twice. It returns what those pages yielded |
| Wizbiz.ShapeKeys | scrapers/wizbiz_scraper.py:167-213 | the detail keys are exactly those for which the page had a title, a description, a contact or documents |
| Wizbiz.ShapeSpec | scrapers/wizbiz_scraper.py:167-213 | the title and full description are present exactly when the page had those elements, and the contact exactly when its block is usable. Documents are present exactly when some document item holds a link |
| Wizbiz.FetchDetails | scrapers/wizbiz_scraper.py:154-157 | an empty link gives `{}` without a request, and the details only carry the four detail keys |
| Wizbiz.EnrichTenders | scrapers/wizbiz_scraper.py:222-245 | enrichment never lengthens the list |
| Wizbiz.EnrichKeepsListing | scrapers/wizbiz_scraper.py:232-238 | every listing field, the short description included, survives enrichment |
| Govi.PageUrl | scrapers/govi_scraper.py:55 | page 1 and below is the bare search URL; later pages strictly extend it |
| Govi.PageUrlInjective | scrapers/govi_scraper.py:55 | pages from 1 on have distinct URLs |
| Govi.FirstPageAliases | scrapers/govi_scraper.py:55 | pages 0 and 1 request the same URL |
| Govi.View | scrapers/govi_scraper.py:66-82 | the loop goes on only past a next link not marked `disabled` |
| Govi.ItemRecord | scrapers/govi_scraper.py:122-131 | the record has exactly the eight listing keys, with source `govi.co.il` and the scrape time |
| Govi.ParseItem | scrapers/govi_scraper.py:95-133 | every item yields a record, even one without a title link |
| Govi.ParseItemKeys | scrapers/govi_scraper.py:122-131 | a parsed item has exactly the listing keys, with the site as source and the scrape time |
| Govi.ParseItemLink | scrapers/govi_scraper.py:99-107 | the URL is absolute or empty and the id is its last segment. Without a title link the title is "not stated" and the id `None`. The item is enriched exactly when its link had an href |
| Govi.FetchSearchResultsSpec | scrapers/govi_scraper.py:46-93 | without ignored replies, the crawl ends within the page budget and, from page 1 on, requests no URL twice. It returns what those pages yielded |
| Govi.ShapeKeys | scrapers/govi_scraper.py:149-204 | the detail keys are exactly those for which the page had a description, categories, a contact or documents |
| Govi.ShapeSpec | scrapers/govi_scraper.py:149-204 | the description is present exactly when the page had it and categories exactly when some category name is non-empty. The contact is present exactly when its block is usable, and documents exactly when some item holds a link |
| Govi.FetchDetails | scrapers/govi_scraper.py:139-211 | the details only carry the four detail keys |
| Govi.EnrichTenders | scrapers/govi_scraper.py:213-236 | enrichment never lengthens the list |
| Govi.EnrichKeepsListing | scrapers/govi_scraper.py:223-229 | every listing field survives enrichment, since the detail page adds only keys the listing lacks |
| UnifiedProcessor.Standardize | scrapers/unified_processor.py:133-147 | a fallback applies only when the key itself is absent: title from description, url from details_url, description from full_description |
| UnifiedProcessor.StandardizeKeepsPresent | scrapers/unified_processor.py:133-147 | a standard key present in the input keeps its value, even an empty one |
| UnifiedProcessor.StandardizeDefaults | scrapers/unified_processor.py:133-147 | an absent key without fallback takes its empty default (`''`, `{}`, `[]` or the clock), and keys outside the 13 are dropped |
| UnifiedProcessor.StandardizeEmptyFallbacks | scrapers/unified_processor.py:136-142 | with neither the key nor its fallback present, title, url and description are `''` |
| UnifiedProcessor.StandardizeRoundTrip | scrapers/unified_processor.py:133-147 | standardizing the dictionary of a standardized record gives it back, whatever the clock |
| UnifiedProcessor.StandardizeIdempotent | scrapers/unified_processor.py:127-152 | standardizing twice is standardizing once, even at a later time |
| UnifiedProcessor.StandardizeTenders | scrapers/unified_processor.py:127-152 | one standardized record per input, in input order |
| UnifiedProcessor.KeyCollision | scrapers/unified_processor.py:161 | titles `a_b`/`a` with publishers `c`/`b_c` share a key: distinct tenders can be merged |
| UnifiedProcessor.RemoveDuplicatesUnique | scrapers/unified_processor.py:154-180 | the output has at most one record per key and no more records than the input |
| UnifiedProcessor.RemoveDuplicatesOrder | scrapers/unified_processor.py:157-177 | output keys come in first-occurrence order, even when a later record replaced the first one kept |
| UnifiedProcessor.RemoveDuplicatesKeepsBest | scrapers/unified_processor.py:164-172 | each output record is an input record with the most truthy values for its key, the earliest on a tie |
| UnifiedProcessor.RemoveDuplicatesKeepsKeys | scrapers/unified_processor.py:159-174 | every input key has a record in the output |
| UnifiedProcessor.RemoveDuplicatesIdempotent | scrapers/unified_processor.py:154-180 | removing duplicates twice is removing them once |
| UnifiedProcessor.DuplicatePair | scrapers/unified_processor.py:164-172 | of two records with one key, the second wins only with strictly more truthy values |
| UnifiedProcessor.CollectFrom | scrapers/unified_processor.py:73-89 | a raising listing, an empty listing or a raising enrichment contributes nothing; otherwise the enriched list is returned |
| UnifiedProcessor.CollectAllIsolation | scrapers/unified_processor.py:45-71 | sources are concatenated mr.gov.il, Wizbiz, Govi; a Wizbiz failure leaves exactly the other two lists |
| UnifiedProcessor.SourceContribution | scrapers/unified_processor.py:73-89 | a source whose crawl finished contributes its first `max_details` listed records, in order, each merged with its fetched details exactly when its link field is truthy |
| UnifiedProcessor.MrGovIlContribution | scrapers/unified_processor.py:73-89 | at the defaults, with no ignored listing reply, the mr.gov.il step returns after at most three listing pages and contributes the first ten listed records, each merged with its detail page when it has a `url` |
| UnifiedProcessor.WizbizContribution | scrapers/unified_processor.py:91-107 | the same for Wizbiz, whose records are enriched through `details_url` |
| UnifiedProcessor.GoviContribution | scrapers/unified_processor.py:109-125 | the same for Govi, enriched through `url` |
| UnifiedProcessor.CollectSitesSpec | scrapers/unified_processor.py:45-71 | collection returns exactly when none of the three crawls hangs, and then holds each source's capped contribution, so at most thirty records |
| UnifiedProcessor.RunSpec | scrapers/unified_processor.py:218-234 | the run returns nothing exactly when nothing was collected. Otherwise it returns a non-empty list of standardized input records, one per key, never more than came in |
| Models.EmptyFresh | database/models.py:71-96 | an empty store satisfies the row-id invariant |
| Models.GetById | database/models.py:179-185 | the row is returned exactly when the id exists |
| Models.Update | database/models.py:149-177 | `update` returns the id it was given, and raises exactly when a column value cannot be bound |
| Models.UpdateSpec | database/models.py:149-177 | the row gets the eight content columns and the update time. It keeps its external id, and no other row or table changes; a missing id changes nothing |
| Models.UpdateIdempotent | database/models.py:149-177 | updating twice with the same data and clock is updating once |
| Models.Delete | database/models.py:256-259 | the tender row, and only it, is removed |
| Models.DeleteSpec | database/models.py:256-259 | after `delete`, `get_by_id` of that id is `None`. Other lookups are unchanged, and links, contacts and documents stay |
| Models.FindCategory | database/models.py:289-295 | the first category in row-id order whose name equals the given one, and none matches a NULL name |
| Models.GetOrCreate | database/models.py:297-302 | the returned category row carries the name; existing rows are kept and only the category table changes |
| Models.GetOrCreateSpec | database/models.py:297-302 | an existing name changes nothing; a new name adds exactly one row under a fresh id |
| Models.GetOrCreateTwice | database/models.py:297-302 | asking again for the same non-NULL name returns the same id and adds nothing |
| Models.GetOrCreateNull | database/models.py:297-302 | a NULL name never matches, so two calls create two rows |
| Models.AddCategory | database/models.py:224-227 | the link set gains exactly the pair |
| Models.RemoveCategory | database/models.py:229-232 | the link set loses exactly the pair |
| Models.LinkSpec | database/models.py:224-232 | adding a link twice is adding it once, and removing takes out exactly that pair. Removing a fresh link restores the store |
| Models.SaveTender | database/models.py:465-468 | the saved set gains exactly the pair |
| Models.UnsaveTender | database/models.py:470-473 | the saved set loses exactly the pair |
| Models.SaveSpec | database/models.py:465-473 | saving twice is saving once, and unsaving a fresh save restores the store |
| Models.Iterate | database/models.py:108 | Python iteration: lists give their items, text its characters, dictionaries their keys (each key once when the key order lists every key once), and anything else raises |
| Models.LinkAll | database/models.py:107-110 | the walk finishes exactly when every name can be bound. It only adds category rows and links from this tender |
| Models.LinkAllLinks | database/models.py:107-110 | after a finished walk every name has a category row of that name linked to the tender |
| Models.CategoriesStepSpec | database/models.py:99-110 | the categories step finishes exactly when the section is absent, falsy or acceptable, and each name is then linked |
| Models.ContactStepSpec | database/models.py:113-127 | the contact step finishes exactly when the contact is acceptable and then adds one row; an absent contact changes nothing |
| Models.DocumentRows | database/models.py:139-145 | only dictionary entries give rows, so there are never more rows than entries, and every row names the tender |
| Models.AddDocumentsOk | database/models.py:139-145 | the document loop finishes exactly when every dictionary entry's name and URL can be bound |
| Models.AddDocumentsKeeps | database/models.py:139-145 | the document loop keeps every earlier row and never lowers the counter |
| Models.AddDocumentsRows | database/models.py:139-145 | a finished document loop stores one row per dictionary entry, in order, under consecutive ids |
| Models.DocumentsStepSpec | database/models.py:130-145 | the documents step finishes exactly when the section is absent, falsy or acceptable, and then stores the entries' rows |
| Models.InsertTender | database/models.py:73-96 | the tender row is stored under the next id, which was free |
| Models.Create | database/models.py:71-147 | an unbindable tender raises before any write. Otherwise the row is stored and the returned id is the new row's; new links all name that tender |
| Models.CreateReturns | database/models.py:71-147 | `create` returns exactly when the tender and every section it handles are acceptable |
| Models.CreateChildren | database/models.py:99-145 | a finished `create` links each category name. It stores one contact row when a contact was given and none otherwise, and one document row per entry in order |
| Models.SectionsFromText | database/models.py:101-136 | text that is not JSON becomes one category name, a contact with that name, and no documents |
| Models.SqlLessOrder | database/models.py:218 | SQLite's value order is a strict weak order |
| Models.BeforeOrder | database/models.py:218 | result order is a strict total order on rows that never puts an older publication date first |
| Models.Sort | database/models.py:218 | sorting gives a permutation of the rows, in result order |
| Models.MatchesFrom | database/models.py:203-216 | exactly the matching tenders, each once, in row-id order |
| Models.Window | database/models.py:218-219 | `LIMIT ? OFFSET ?`: a negative offset counts as 0 and a negative limit means no limit; the window is a contiguous slice |
| Models.SearchMatches | database/models.py:201-222 | every result matches the keyword, category and status filters |
| Models.SearchOrdered | database/models.py:218 | results come newest publication date first and no tender appears twice |
| Models.SearchComplete | database/models.py:201-222 | the result size is fixed by the window, and with no window every matching tender is returned |
| Models.Assignments | database/models.py:438-451 | the assignment list is empty exactly when no field is given |
| Models.UserUpdateNothing | database/models.py:450-451 | no statement runs exactly when email, password hash and name are all `None` |
| Models.UserUpdateParams | database/models.py:436-456 | the parameters are the given fields in the order email, password hash, name, then the user id |
| Models.UserUpdatePlaceholders | database/models.py:453-458 | the SQL has exactly one `?` per parameter |
| Strings.IntRoundTrip | scheduler/refresh_service.py:121-122 | reading back the PID text the service wrote gives the PID |
| Scheduler.RunScript | scheduler/refresh_scheduler.py:62-83 | a script is launched exactly when its file exists, and succeeds exactly when it was launched and exited 0 |
| Scheduler.RunScraperSpec | scheduler/refresh_scheduler.py:39-60 | scraper paths are distinct per name, and a missing script is neither run nor successful. A scraper succeeds exactly when its script exists and exits 0 |
| Scheduler.RefreshAllTenders | scheduler/refresh_scheduler.py:108-124 | the three scrapers always run first, in order, and nothing else runs before them. The processor runs next exactly when one succeeded, and the database update last exactly when the processor also succeeded |
| Scheduler.RefreshAllSucceed | scheduler/refresh_scheduler.py:113-124 | when every step succeeds the run is the three scrapes, the processor, then the database update |
| Scheduler.RefreshOn | scheduler/refresh_scheduler.py:108-124 | on a machine, the processor runs exactly when some scraper script exists and succeeds, and the database update exactly when the processor script then succeeds too |
| Scheduler.LogLine | scheduler/refresh_scheduler.py:28 | a log line starts with the time and ` - ` and contains the message |
| Scheduler.Serve | scheduler/refresh_scheduler.py:160-168 | after `n` rounds the loop has left exactly when the interrupt came at an earlier round, at that round; otherwise it has served `n` rounds |
| Scheduler.ServesUntilInterrupted | scheduler/refresh_scheduler.py:160-168 | the loop is still serving after every number of rounds exactly when no interrupt ever comes |
| Scheduler.SchedulerMainAsWritten | scheduler/refresh_scheduler.py:150-171 | `main` sets up the three jobs and runs one refresh, whatever its arguments. It serves forever exactly when never interrupted, and an interrupted loop ends normally |
| Scheduler.SchedulerIgnoresArgs | scheduler/refresh_scheduler.py:150-171 | as written, `--refresh-now` makes no difference: `main` does the same with it, without it, or with any other arguments |
| Scheduler.SchedulerMain | scheduler/refresh_scheduler.py:150-171 | corrected: with `--refresh-now` it runs one refresh, sets up no jobs and exits reporting whether the whole refresh got through; otherwise it is `main` as written |
| Scheduler.SetupSchedule | scheduler/refresh_scheduler.py:136-148 | three jobs are appended after the existing ones |
| Scheduler.SetupScheduleClocks | scheduler/refresh_scheduler.py:139-145 | the new jobs run at 06:00, 14:00 and 22:00 |
| Scheduler.Wait | scheduler/refresh_scheduler.py:139-145 | a daily job's next run is more than 0 and at most one day away |
| Scheduler.NextRun | scheduler/refresh_scheduler.py:131 | there is a next run exactly when some job exists, and it is the smallest of the jobs' waits |
| Scheduler.SetupScheduleEightHours | scheduler/refresh_scheduler.py:136-148 | after setup the next refresh is never more than eight hours away |
| Scheduler.Pad2Value | scheduler/refresh_scheduler.py:133 | a two-digit field reads back as its number |
| Scheduler.Pad4Value | scheduler/refresh_scheduler.py:133 | a four-digit year reads back as its number |
| Scheduler.GetNextRunTimeSpec | scheduler/refresh_scheduler.py:129-134 | no next run gives the "not scheduled" text. Otherwise the text has 19 characters with separators in place, and each field reads back as the time's component |
| RefreshService.Start | scheduler/refresh_service.py:38-63 | start succeeds exactly when the service is not running and the launch works, and it never signals. On success the PID file names the new process; on failure nothing changes |
| RefreshService.StartLaunchesScheduler | scheduler/refresh_service.py:48-53 | the started scheduler gets no arguments, so it behaves the same corrected or not and serves until it is interrupted |
| RefreshService.StartTwice | scheduler/refresh_service.py:40-42 | after a successful start a second start is refused and changes nothing |
| RefreshService.Stop | scheduler/refresh_service.py:65-98 | stop always reports success and leaves the service not running |
| RefreshService.StopSpec | scheduler/refresh_service.py:65-98 | a stopped service is left alone and not signalled. A running one gets TERM first, then KILL only if it survived, both addressed to the id in the PID file; the PID file is removed and that id leaves the process table |
| RefreshService.StopAfterStart | scheduler/refresh_service.py:38-98 | after a start that wrote a positive process id, stop signals only that process and leaves every other process as it was before the start |
| RefreshService.Restart | scheduler/refresh_service.py:100-105 | a successful restart leaves the service running |
| RefreshService.RestartSpec | scheduler/refresh_service.py:100-105 | restart succeeds exactly when the launch works, whatever the state before. It records the new PID and sends stop's signals |
| RefreshService.SplitHead | scheduler/refresh_service.py:158 | `line.split(' - ')[0]` is a prefix of the line |
| RefreshService.SplitHeadSpec | scheduler/refresh_service.py:158 | the head holds no separator. It is followed by the separator when the line has one, and is the whole line otherwise |
| RefreshService.SplitHeadOfLogLine | scheduler/refresh_service.py:158 | splitting a scheduler log line gives back its time stamp |
| RefreshService.LastContaining | scheduler/refresh_service.py:155-156 | finds the last line containing the marker, or reports that none does |
| RefreshService.GetLastRefreshTimeSpec | scheduler/refresh_service.py:151-162 | a time is found exactly when some line has the completion message; it is the head of the last such line |
| RefreshService.LastRefreshAfterRefresh | scheduler/refresh_service.py:151-162 | after the scheduler logs a completion, the last refresh time read from the log is that line's time |
| RefreshService.StatusOf | scheduler/refresh_service.py:128-149 | status is true exactly when the service runs, and shows a refresh time only then |
| RefreshService.StatusAsWrittenMissesRefresh | scheduler/refresh_service.py:138-141 | as written, status reads the service's own log and misses a refresh the scheduler logged |
| RefreshService.StatusShowsLastRefresh | scheduler/refresh_service.py:128-162 | corrected: a running service shows the time of the last refresh its scheduler logged |
| RefreshService.RunManualRefresh | scheduler/refresh_service.py:164-180 | the caller gets a result exactly when the child exits, and the result is the child's |
| RefreshService.ManualRefreshBlocks | scheduler/refresh_service.py:169-174 | as written, the child runs one refresh and then serves. Uninterrupted it is still serving after any number of rounds and `refresh` never returns; interrupted, `refresh` reports success whatever the refresh did |
| RefreshService.ManualRefreshReturns | scheduler/refresh_service.py:169-174 | corrected: `refresh` returns whether the refresh got through the database update |
| RefreshService.ParseCommand | scheduler/refresh_service.py:184-188 | fewer than two arguments is the usage case; an unknown command is reported lower-cased |
| RefreshService.ParseCommandSpec | scheduler/refresh_service.py:188-202 | extra arguments are ignored and commands are case-insensitive; an unknown name is none of the five |
| RefreshService.Main | scheduler/refresh_service.py:182-202 | as written: start, stop and restart give those commands' results; status reports from the service's own log; refresh waits on the scheduler as written; usage and unknown names are reported. Status, refresh, unknown and missing commands change no service state and send no signal |
| RefreshService.MainCorrected | scheduler/refresh_service.py:182-202 | with both findings fixed, status reports the scheduler's last refresh and refresh returns the refresh result; every other command is unchanged |
| RefreshService.MainRefreshBlocks | scheduler/refresh_service.py:197-198 | as written, `refresh_service.py refresh` with nobody interrupting never returns; corrected, it returns the refresh result |
| RefreshService.MainStopStops | scheduler/refresh_service.py:192-193 | after `stop`, however spelled, the service is not running |
| Cloudflare.AnyLineContains | scheduler/cloudflare_integration.py:231-235 | for a one-line marker, some line of `readlines()` holds it exactly when the whole text does |
| Cloudflare.CreateMigrationFile | scheduler/cloudflare_integration.py:32-58 | the migration is written exactly when the schema exists, and it is a copy of the schema |
| Cloudflare.UpdateSchemaForLogs | scheduler/cloudflare_integration.py:185-223 | the patch needs the migration file and touches nothing else |
| Cloudflare.UpdateSchemaForLogsSpec | scheduler/cloudflare_integration.py:185-223 | the migration keeps its text as a prefix and is unchanged exactly when it already has the logs table. Otherwise the table is appended; patching again changes nothing |
| Cloudflare.CreateRefreshWorker | scheduler/cloudflare_integration.py:60-183 | the worker is always written and then the logs patch is applied |
| Cloudflare.CreateRefreshWorkerIgnoresSchema | scheduler/cloudflare_integration.py:178-180 | a failing logs patch does not fail the worker step |
| Cloudflare.UpdateWranglerConfig | scheduler/cloudflare_integration.py:225-258 | the patch needs `wrangler.toml` and touches nothing else |
| Cloudflare.UpdateWranglerConfigSpec | scheduler/cloudflare_integration.py:225-258 | the config keeps its text as a prefix and is unchanged exactly when it already names `REFRESH_API_KEY`. Otherwise the refresh block is appended; patching again changes nothing |
| Cloudflare.Main | scheduler/cloudflare_integration.py:260-271 | the migration step always runs first, and alone exactly when the schema is missing |
| Cloudflare.MainSpec | scheduler/cloudflare_integration.py:264-269 | with a schema all three steps run. The migration gets the logs table once, the route is written, and an existing config gains the API key |
| Cloudflare.MainIdempotent | scheduler/cloudflare_integration.py:260-271 | running the integration twice is running it once |

## Left out

- HTML parsing: an element is given as present or absent with its raw text. `.strip()` removes the characters Python's `str.isspace` accepts (Unicode category Zs and bidirectional classes WS, B and S).
- HTTP: a site is a function from URL to reply, so no timeouts, retries or redirects are modelled. `time.sleep`, logging and the `requests` headers are not modelled.
- `save_to_json`, `save_to_csv` and the scrapers' own `main` functions are not modelled. They only write files, and a failed write returns `None`.
- `datetime.now()`: the scrape time is a string parameter.
- Record field order is not modelled: records are maps, and no property depends on insertion order.
- SQLite: only the behaviour `models.py` relies on is modelled.
  - Not modelled: type affinity, `rowid` reuse after deletes, `LIKE` escaping of `%`/`_` in the keyword, and SQLite's Unicode-unaware case folding beyond ASCII.
  - `create` runs each insert on a fresh connection. The model keeps every row written before a failing step, but not partially bound statements.
- `Models.BeforeOrder`: rows with equal publication dates are ordered by id. SQLite leaves their order unspecified, so this is one admissible order.
- `get_by_external_id`, `get_all`, the per-tender `get_categories`/`get_contacts`/`get_documents`, and the `CategoryModel` update/delete/get_all functions are not modelled. Neither are `UserModel` create/get/delete/`get_saved_tenders` and `add_notification`. Each is a single parameterised statement with no logic beyond the SQL text.
- `json.loads` and dictionary key order are oracles. Invalid JSON is `None`, and any decoded value is allowed.
- Python's `int()` is modelled on ASCII digits with an optional sign and surrounding spaces. Underscores and non-ASCII digits are not accepted.
- `UnifiedProcessor.RemoveDuplicates` requires every title and publisher to be a scalar. A list or dictionary title would be rendered through its `repr`, which is not modelled.
- `UnifiedProcessor.Run` carries the same requirement for its whole batch, and does not model the file output.
- `Scheduler.NextRun` measures waits within one day from a clock given in seconds. The `schedule` library's internals, its weekly/interval jobs and the infinite `run_pending` loop are not modelled.
- `Scheduler.GetNextRunTimeSpec` pads years to four digits. Some platforms' `%Y` does not pad years below 1000.
- RefreshService.ParseCommand: lowers ASCII letters only. Python's `str.lower()` also lowers other capitals, so an unknown command holding such letters is echoed differently. No other capital lowers to a letter of the five command names, so the command chosen is the same.
- RefreshService.Stop, RefreshService.StopSpec: the id in the PID file is treated as one process. `os.kill` reads 0 as the caller's process group and a negative id as a group or every process, which is not modelled. The service itself only writes positive process ids (`StopAfterStart`).
- Scheduler.SchedulerMainAsWritten: the interrupt is an input, the loop round at which `KeyboardInterrupt` or another exception escapes. The jobs `run_pending` runs during the loop and the logging are not modelled.
- UnifiedProcessor.CollectSitesSpec: the scrapers catch request errors themselves, so in the site models neither collection step raises. `ListingRaised` and a failed enrichment are reachable only through `CollectFrom`'s own input, such as an exception from a parser on malformed HTML.
- Subprocesses, `os.kill`, PID files and the clock are oracles. The race between TERM and KILL is not modelled, and neither is the two-second wait. Exceptions raised only by such races are not modelled either.
- The unread `Popen` pipes are not modelled: in the source they can fill and block the scheduler.
- File writes in `cloudflare_integration.py` are assumed to succeed. The TypeScript text of the worker route is not modelled, only whether it was written.
- Text-mode newline translation (`\r\n`) when reading logs and configs is not modelled.
- `schema.sql`, `init_db.py` and the web application are not part of this model.

## Findings

| source | as written | input that shows it | evidently intended | confidence | as-written member | corrected member |
|---|---|---|---|---|---|---|
| scheduler/refresh_service.py:169-174 | `refresh` runs the scheduler with `--refresh-now` and waits for it to exit. The scheduler's `main` (refresh_scheduler.py:150-171) ignores its arguments and serves its schedule until something interrupts it | `refresh_service.py refresh` | the scheduler runs one refresh and exits when given `--refresh-now`, so the manual refresh returns its result | high (not executed) | RefreshService.ManualRefreshBlocks | RefreshService.ManualRefreshReturns |
| scheduler/refresh_service.py:138-141 | `status` looks for the completion message in `refresh_service.log` (line 21). The scheduler writes that message to `refresh.log` (refresh_scheduler.py:30,126) | a running service whose scheduler has logged one completed refresh | `status` reports the time of the last completed refresh from the scheduler's log | high (not executed) | RefreshService.StatusAsWrittenMissesRefresh | RefreshService.StatusShowsLastRefresh |
