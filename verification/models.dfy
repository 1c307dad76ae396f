/**
 * The data-access layer (database/models.py) over an in-memory store: the
 * `tenders`, `categories`, `contacts` and `documents` tables as maps from
 * row id to row, the `tender_categories` and `saved_tenders` join tables as
 * sets of id pairs, and one next-row-id counter per table.
 */
module Models {
  import opened Wrappers
  import opened Strings
  import opened Values

  // ---------------------------------------------------------------------
  // State
  // ---------------------------------------------------------------------

  /** A `tenders` row; `updatedAt` is the clock reading of the last update, if any. */
  datatype TenderRow = TenderRow(
    externalId: Value,
    title: Value,
    description: Value,
    publisher: Value,
    publishDate: Value,
    submissionDate: Value,
    status: Value,
    url: Value,
    source: Value,
    updatedAt: Option<string>)

  datatype ContactRow = ContactRow(tenderId: int, name: Value, email: Value, phone: Value)

  datatype DocumentRow = DocumentRow(tenderId: int, name: Value, url: Value)

  datatype Db = Db(
    tenders: map<int, TenderRow>,
    categories: map<int, Value>,
    links: set<(int, int)>,
    contacts: map<int, ContactRow>,
    documents: map<int, DocumentRow>,
    saved: set<(int, int)>,
    nextTender: int,
    nextCategory: int,
    nextContact: int,
    nextDocument: int)

  /** Row ids start at 1 and stay below their table's next id. */
  predicate Fresh(db: Db) {
    && 1 <= db.nextTender && 1 <= db.nextCategory && 1 <= db.nextContact && 1 <= db.nextDocument
    && (forall id :: id in db.tenders ==> 1 <= id < db.nextTender)
    && (forall id :: id in db.categories ==> 1 <= id < db.nextCategory)
    && (forall id :: id in db.contacts ==> 1 <= id < db.nextContact)
    && (forall id :: id in db.documents ==> 1 <= id < db.nextDocument)
  }

  const Empty := Db(map[], map[], {}, map[], map[], {}, 1, 1, 1, 1)

  lemma EmptyFresh()
    ensures Fresh(Empty)
  {
  }

  /** The result of a data-access call: it returned a value, or raised after changing the store so far. */
  datatype Outcome<T> = Done(db: Db, value: T) | Raised(db: Db)

  // ---------------------------------------------------------------------
  // Tender rows
  // ---------------------------------------------------------------------

  /** `tender_data.get(k, '')`. */
  function Col(data: Record, k: string): Value {
    Get(data, k, Str(""))
  }

  /** sqlite binds `None`, booleans, integers and text; a list or dictionary parameter raises. */
  predicate Bindable(data: Record, keys: seq<string>) {
    forall i :: 0 <= i < |keys| ==> Scalar(Col(data, keys[i]))
  }

  const InsertKeys: seq<string> :=
    ["id", "title", "description", "publisher", "publish_date", "submission_date", "status", "url", "source"]

  const UpdateKeys: seq<string> :=
    ["title", "description", "publisher", "publish_date", "submission_date", "status", "url", "source"]

  /** The row `create` inserts: the record's `id` becomes `external_id`. */
  function InsertedRow(data: Record): TenderRow {
    TenderRow(
      Col(data, "id"), Col(data, "title"), Col(data, "description"), Col(data, "publisher"),
      Col(data, "publish_date"), Col(data, "submission_date"), Col(data, "status"),
      Col(data, "url"), Col(data, "source"), None)
  }

  /** `get_by_id`. */
  function GetById(db: Db, id: int): (r: Option<TenderRow>)
    ensures r.Some? <==> id in db.tenders
    ensures r.Some? ==> r.value == db.tenders[id]
  {
    if id in db.tenders then Some(db.tenders[id]) else None
  }

  /**
   * `update`: the eight content columns take the record's values (`''` when
   * absent) and `updated_at` the clock; an id with no row changes nothing.
   */
  function Update(db: Db, id: int, data: Record, now: string): (o: Outcome<int>)
    ensures o.Done? <==> Bindable(data, UpdateKeys)
    ensures o.Done? ==> o.value == id
  {
    if !Bindable(data, UpdateKeys) then Raised(db)
    else if id !in db.tenders then Done(db, id)
    else
      var old_ := db.tenders[id];
      var row := InsertedRow(data).(externalId := old_.externalId, updatedAt := Some(now));
      Done(db.(tenders := db.tenders[id := row]), id)
  }

  /**
   * After an update the row holds the record's content columns, keeps its
   * id and external id, and no other row, link or child row changes.
   */
  lemma UpdateSpec(db: Db, id: int, data: Record, now: string)
    requires Bindable(data, UpdateKeys)
    ensures var d := Update(db, id, data, now).db;
      && d.tenders.Keys == db.tenders.Keys
      && (forall other :: other in db.tenders && other != id ==> d.tenders[other] == db.tenders[other])
      && d.links == db.links && d.categories == db.categories && d.contacts == db.contacts && d.documents == db.documents
      && (id in db.tenders ==>
            var r := d.tenders[id];
            && r.externalId == db.tenders[id].externalId
            && r.title == Col(data, "title") && r.description == Col(data, "description")
            && r.publisher == Col(data, "publisher") && r.publishDate == Col(data, "publish_date")
            && r.submissionDate == Col(data, "submission_date") && r.status == Col(data, "status")
            && r.url == Col(data, "url") && r.source == Col(data, "source")
            && r.updatedAt == Some(now))
  {
  }

  /** Updating twice with the same record and clock is updating once. */
  lemma UpdateIdempotent(db: Db, id: int, data: Record, now: string)
    ensures var o := Update(db, id, data, now);
            Update(o.db, id, data, now) == o
  {
  }

  /** `delete`: removes the tender row only; its links, contact and documents stay. */
  function Delete(db: Db, id: int): (d: Db)
    ensures d.tenders == db.tenders - {id}
  {
    db.(tenders := db.tenders - {id})
  }

  /** After `delete(id)`, `get_by_id(id)` is `None`; every other lookup and every child table is unchanged. */
  lemma DeleteSpec(db: Db, id: int)
    ensures GetById(Delete(db, id), id) == None
    ensures forall other :: other != id ==> GetById(Delete(db, id), other) == GetById(db, other)
    ensures var d := Delete(db, id);
      d.links == db.links && d.contacts == db.contacts && d.documents == db.documents && d.categories == db.categories
  {
  }

  // ---------------------------------------------------------------------
  // Categories and links
  // ---------------------------------------------------------------------

  /** SQL `name = ?`: never true for NULL. */
  predicate NameMatches(stored: Value, name: Value) {
    name != Null && stored == name
  }

  /** The first category, in row-id order from `from`, whose name matches (`get_by_name`). */
  function FindCategory(db: Db, name: Value, from: int): (c: Option<int>)
    ensures c.Some? ==> from <= c.value && c.value in db.categories && NameMatches(db.categories[c.value], name)
    ensures c.Some? ==> forall k :: from <= k < c.value && k in db.categories ==> !NameMatches(db.categories[k], name)
    ensures c.None? ==> forall k :: from <= k < db.nextCategory && k in db.categories ==> !NameMatches(db.categories[k], name)
    decreases db.nextCategory - from
  {
    if from >= db.nextCategory then None
    else if from in db.categories && NameMatches(db.categories[from], name) then Some(from)
    else FindCategory(db, name, from + 1)
  }

  /** `get_or_create`: the first category with that name, or a new one. */
  function GetOrCreate(db: Db, name: Value): (r: (Db, int))
    ensures r.1 in r.0.categories && r.0.categories[r.1] == name
    ensures r.0 == db.(categories := r.0.categories, nextCategory := r.0.nextCategory)
    ensures Fresh(db) ==> Fresh(r.0) && db.categories.Keys <= r.0.categories.Keys
    ensures Fresh(db) ==> forall c :: c in db.categories ==> r.0.categories[c] == db.categories[c]
  {
    match FindCategory(db, name, 1)
    case Some(c) => (db, c)
    case None =>
      var c := db.nextCategory;
      (db.(categories := db.categories[c := name], nextCategory := c + 1), c)
  }

  /**
   * An existing name is found, a new one creates exactly one row; asking
   * again for the same (non-NULL) name returns the same id and adds nothing.
   */
  lemma GetOrCreateSpec(db: Db, name: Value)
    requires Fresh(db)
    ensures var (d, c) := GetOrCreate(db, name);
      && ((exists k :: k in db.categories && NameMatches(db.categories[k], name)) ==> d == db)
      && (!(exists k :: k in db.categories && NameMatches(db.categories[k], name)) ==>
            c !in db.categories && d.categories == db.categories[c := name])
  {
    if exists k :: k in db.categories && NameMatches(db.categories[k], name) {
      var k :| k in db.categories && NameMatches(db.categories[k], name);
      assert FindCategory(db, name, 1).Some?;
    }
  }

  lemma GetOrCreateTwice(db: Db, name: Value)
    requires Fresh(db) && name != Null
    ensures var (d1, c1) := GetOrCreate(db, name);
            GetOrCreate(d1, name) == (d1, c1)
  {
    var (d1, c1) := GetOrCreate(db, name);
    assert NameMatches(d1.categories[c1], name);
    assert 1 <= c1 < d1.nextCategory;
    var found := FindCategory(d1, name, 1);
    assert found.Some?;
    assert found.value <= c1;
  }

  /** A NULL name never matches, so each call creates a fresh row. */
  lemma GetOrCreateNull(db: Db)
    requires Fresh(db)
    ensures var (d1, c1) := GetOrCreate(db, Null);
            var (d2, c2) := GetOrCreate(d1, Null);
            c1 != c2 && c1 in d2.categories && c2 in d2.categories
  {
  }

  /** `add_category` (`INSERT OR IGNORE`). */
  function AddCategory(db: Db, tender: int, category: int): (d: Db)
    ensures d.links == db.links + {(tender, category)}
  {
    db.(links := db.links + {(tender, category)})
  }

  /** `remove_category`. */
  function RemoveCategory(db: Db, tender: int, category: int): (d: Db)
    ensures d.links == db.links - {(tender, category)}
  {
    db.(links := db.links - {(tender, category)})
  }

  /** Adding a link twice is adding it once; removing takes out exactly that pair. */
  lemma LinkSpec(db: Db, tender: int, category: int)
    ensures AddCategory(AddCategory(db, tender, category), tender, category) == AddCategory(db, tender, category)
    ensures (tender, category) in AddCategory(db, tender, category).links
    ensures (tender, category) !in RemoveCategory(db, tender, category).links
    ensures forall p :: p != (tender, category) ==> (p in RemoveCategory(db, tender, category).links <==> p in db.links)
    ensures (tender, category) !in db.links ==> RemoveCategory(AddCategory(db, tender, category), tender, category) == db
  {
  }

  /** `save_tender` (`INSERT OR IGNORE`) and `unsave_tender`. */
  function SaveTender(db: Db, user: int, tender: int): (d: Db)
    ensures d.saved == db.saved + {(user, tender)}
  {
    db.(saved := db.saved + {(user, tender)})
  }

  function UnsaveTender(db: Db, user: int, tender: int): (d: Db)
    ensures d.saved == db.saved - {(user, tender)}
  {
    db.(saved := db.saved - {(user, tender)})
  }

  lemma SaveSpec(db: Db, user: int, tender: int)
    ensures SaveTender(SaveTender(db, user, tender), user, tender) == SaveTender(db, user, tender)
    ensures (user, tender) !in UnsaveTender(SaveTender(db, user, tender), user, tender).saved
    ensures (user, tender) !in db.saved ==> UnsaveTender(SaveTender(db, user, tender), user, tender) == db
  {
  }

  // ---------------------------------------------------------------------
  // create
  // ---------------------------------------------------------------------

  /**
   * What `create` uses of the `json` module and of dictionaries: `loads`
   * decodes a text (None when it is not JSON) and `keyOrder` lists a
   * dictionary's keys in insertion order.
   */
  datatype Json = Json(loads: string -> Option<Value>, keyOrder: map<string, Value> -> seq<string>)

  /** `keys` names every key of `m` once, as a dictionary's insertion order does. */
  predicate ListsKeys(keys: seq<string>, m: map<string, Value>) {
    && (forall i :: 0 <= i < |keys| ==> keys[i] in m)
    && (forall k :: k in m ==> k in keys)
    && (forall i, j :: 0 <= i < j < |keys| ==> keys[i] != keys[j])
  }

  /** A list naming every key of a dictionary once is as long as the dictionary. */
  lemma {:induction false} ListsKeysCount(keys: seq<string>, m: map<string, Value>)
    requires ListsKeys(keys, m)
    ensures |keys| == |m|
    decreases |keys|
  {
    if keys == [] {
      assert m.Keys == {};
    } else {
      var m' := m - {keys[0]};
      var rest := keys[1..];
      forall i | 0 <= i < |rest| ensures rest[i] in m' {
        assert rest[i] == keys[i + 1] && keys[i + 1] != keys[0];
      }
      forall k | k in m' ensures k in rest {
        var i :| 0 <= i < |keys| && keys[i] == k;
        assert i != 0 && rest[i - 1] == k;
      }
      forall i, j | 0 <= i < j < |rest| ensures rest[i] != rest[j] {
        assert rest[i] == keys[i + 1] && rest[j] == keys[j + 1];
      }
      ListsKeysCount(rest, m');
      assert keys[0] in m;
      assert m'.Keys == m.Keys - {keys[0]};
    }
  }

  /** The names a dictionary iterates over are its keys, one per key, when `keys` lists them. */
  lemma KeyNames(keys: seq<string>, m: map<string, Value>, names: seq<Value>)
    requires |names| == |keys| && forall i :: 0 <= i < |keys| ==> names[i] == Str(keys[i])
    ensures ListsKeys(keys, m) ==> |names| == |m| && forall k :: k in m <==> Str(k) in names
  {
    if ListsKeys(keys, m) {
      ListsKeysCount(keys, m);
      forall k ensures k in m <==> Str(k) in names {
        if k in m {
          var i :| 0 <= i < |keys| && keys[i] == k;
          assert names[i] == Str(k);
        }
        if Str(k) in names {
          var i :| 0 <= i < |names| && names[i] == Str(k);
          assert keys[i] == k;
        }
      }
    }
  }

  /** One step of `create` after the tender insert: it finished, or raised leaving the store as it got it so far. */
  datatype Run = Ok(db: Db) | Fail(db: Db)

  /** Python's `for x in v`: list items, one-character strings, dictionary keys; None when `v` is not iterable. */
  function Iterate(v: Value, json: Json): (r: Option<seq<Value>>)
    ensures r.None? <==> !(v.Arr? || v.Str? || v.Obj?)
    ensures v.Arr? ==> r == Some(v.items)
    ensures v.Str? ==> r.Some? && |r.value| == |v.s| && forall i :: 0 <= i < |v.s| ==> r.value[i] == Str([v.s[i]])
    ensures v.Obj? ==> r.Some? && forall i :: 0 <= i < |r.value| ==> r.value[i].Str?
    ensures v.Obj? && ListsKeys(json.keyOrder(v.fields), v.fields) ==>
      |r.value| == |v.fields| && forall k :: k in v.fields <==> Str(k) in r.value
  {
    match v
    case Arr(items) => Some(items)
    case Str(s) => Some(seq(|s|, i requires 0 <= i < |s| => Str([s[i]])))
    case Obj(fields) =>
      var keys := json.keyOrder(fields);
      var names := seq(|keys|, i requires 0 <= i < |keys| => Str(keys[i]));
      KeyNames(keys, fields, names);
      Some(names)
    case _ => None
  }

  /** The category names `create` walks: JSON text decoded, other text taken as one name. */
  function CategoryNames(v: Value, json: Json): Option<seq<Value>> {
    if v.Str? then
      match json.loads(v.s)
      case Some(decoded) => Iterate(decoded, json)
      case None => Some([v])
    else Iterate(v, json)
  }

  /** Each name through `get_or_create` and linked to the tender; a name sqlite cannot bind raises. */
  function LinkAll(db: Db, tender: int, names: seq<Value>): (r: Run)
    ensures r.Ok? <==> forall i :: 0 <= i < |names| ==> Scalar(names[i])
    ensures r.db == db.(categories := r.db.categories, nextCategory := r.db.nextCategory, links := r.db.links)
    ensures db.links <= r.db.links && forall p :: p in r.db.links && p !in db.links ==> p.0 == tender
    ensures Fresh(db) ==> Fresh(r.db) && db.categories.Keys <= r.db.categories.Keys
    ensures Fresh(db) ==> forall c :: c in db.categories ==> r.db.categories[c] == db.categories[c]
    decreases |names|
  {
    if |names| == 0 then Ok(db)
    else if !Scalar(names[0]) then Fail(db)
    else
      var (d, c) := GetOrCreate(db, names[0]);
      LinkAll(AddCategory(d, tender, c), tender, names[1..])
  }

  /** Every name of a finished walk has a category row of that name linked to the tender. */
  lemma {:induction false} LinkAllLinks(db: Db, tender: int, names: seq<Value>)
    requires Fresh(db)
    ensures var r := LinkAll(db, tender, names);
      r.Ok? ==> forall i :: 0 <= i < |names| ==>
        exists c :: (tender, c) in r.db.links && c in r.db.categories && r.db.categories[c] == names[i]
    decreases |names|
  {
    var r := LinkAll(db, tender, names);
    if |names| > 0 && Scalar(names[0]) {
      var (d, c) := GetOrCreate(db, names[0]);
      var d1 := AddCategory(d, tender, c);
      LinkAllLinks(d1, tender, names[1..]);
      if r.Ok? {
        forall i | 0 <= i < |names|
          ensures exists c :: (tender, c) in r.db.links && c in r.db.categories && r.db.categories[c] == names[i]
        {
          if i == 0 {
            assert (tender, c) in r.db.links && c in r.db.categories && r.db.categories[c] == names[0];
          } else {
            assert names[i] == names[1..][i - 1];
          }
        }
      }
    }
  }

  function CategoriesStep(db: Db, tender: int, data: Record, json: Json): (r: Run)
    ensures r.db == db.(categories := r.db.categories, nextCategory := r.db.nextCategory, links := r.db.links)
    ensures db.links <= r.db.links && forall p :: p in r.db.links && p !in db.links ==> p.0 == tender
    ensures Fresh(db) ==> Fresh(r.db)
  {
    if !HasTruthy(data, "categories") then Ok(db)
    else
      match CategoryNames(data["categories"], json)
      case None => Fail(db)
      case Some(names) => LinkAll(db, tender, names)
  }

  /** The contact fields `create` reads: a dictionary, JSON text of one, or other text taken as the name. */
  function ContactData(v: Value, json: Json): Option<Record> {
    match v
    case Obj(fields) => Some(fields)
    case Str(s) =>
      (match json.loads(s)
       case None => Some(map["name" := v])
       case Some(decoded) => if decoded.Obj? then Some(decoded.fields) else None)
    case _ => None
  }

  /** The `contacts` row for a contact dictionary; absent fields are `''`. */
  function ContactRowOf(tender: int, fields: Record): ContactRow {
    ContactRow(tender, Get(fields, "name", Str("")), Get(fields, "email", Str("")), Get(fields, "phone", Str("")))
  }

  function ContactStep(db: Db, tender: int, data: Record, json: Json): (r: Run)
    ensures r.db == db.(contacts := r.db.contacts, nextContact := r.db.nextContact)
    ensures Fresh(db) ==> Fresh(r.db)
  {
    if !HasTruthy(data, "contact") then Ok(db)
    else
      match ContactData(data["contact"], json)
      case None => Fail(db)
      case Some(fields) =>
        var row := ContactRowOf(tender, fields);
        if Scalar(row.name) && Scalar(row.email) && Scalar(row.phone) then
          Ok(db.(contacts := db.contacts[db.nextContact := row], nextContact := db.nextContact + 1))
        else Fail(db)
  }

  /** The document entries `create` walks: JSON text decoded, other text as no documents. */
  function DocumentItems(v: Value, json: Json): Option<seq<Value>> {
    if v.Str? then
      match json.loads(v.s)
      case Some(decoded) => Iterate(decoded, json)
      case None => Some([])
    else Iterate(v, json)
  }

  function DocumentRowOf(tender: int, fields: Record): DocumentRow {
    DocumentRow(tender, Get(fields, "name", Str("")), Get(fields, "url", Str("")))
  }

  /** The reference: one `documents` row per dictionary entry, in order; other entries add nothing. */
  function DocumentRows(tender: int, docs: seq<Value>): (rows: seq<DocumentRow>)
    ensures |rows| <= |docs|
    ensures forall j :: 0 <= j < |rows| ==> rows[j].tenderId == tender
  {
    if docs == [] then []
    else (if docs[0].Obj? then [DocumentRowOf(tender, docs[0].fields)] else []) + DocumentRows(tender, docs[1..])
  }

  predicate DocumentBindable(row: DocumentRow) {
    Scalar(row.name) && Scalar(row.url)
  }

  predicate AllDocumentsBindable(rows: seq<DocumentRow>) {
    forall j :: 0 <= j < |rows| ==> DocumentBindable(rows[j])
  }

  lemma AllDocumentsBindableCons(row: DocumentRow, rest: seq<DocumentRow>)
    ensures AllDocumentsBindable([row] + rest) <==> DocumentBindable(row) && AllDocumentsBindable(rest)
  {
    var rows := [row] + rest;
    assert rows[0] == row;
    if DocumentBindable(row) && AllDocumentsBindable(rest) {
      forall j | 0 <= j < |rows| ensures DocumentBindable(rows[j]) {
        if j > 0 {
          assert rows[j] == rest[j - 1];
        }
      }
    }
    if AllDocumentsBindable(rows) {
      forall j | 0 <= j < |rest| ensures DocumentBindable(rest[j]) {
        assert rest[j] == rows[j + 1];
      }
    }
  }

  /** The insert loop over the entries. */
  function AddDocuments(db: Db, tender: int, docs: seq<Value>): (r: Run)
    ensures r.db == db.(documents := r.db.documents, nextDocument := r.db.nextDocument)
    ensures Fresh(db) ==> Fresh(r.db)
    decreases |docs|
  {
    if docs == [] then Ok(db)
    else if !docs[0].Obj? then AddDocuments(db, tender, docs[1..])
    else
      var row := DocumentRowOf(tender, docs[0].fields);
      if !DocumentBindable(row) then Fail(db)
      else AddDocuments(db.(documents := db.documents[db.nextDocument := row], nextDocument := db.nextDocument + 1), tender, docs[1..])
  }

  /** The loop only adds rows, under ids from the counter on, and keeps every earlier row. */
  lemma {:induction false} AddDocumentsKeeps(db: Db, tender: int, docs: seq<Value>)
    requires Fresh(db)
    ensures db.nextDocument <= AddDocuments(db, tender, docs).db.nextDocument
    ensures forall k :: k in db.documents ==>
      k in AddDocuments(db, tender, docs).db.documents && AddDocuments(db, tender, docs).db.documents[k] == db.documents[k]
    decreases |docs|
  {
    if docs != [] && docs[0].Obj? && DocumentBindable(DocumentRowOf(tender, docs[0].fields)) {
      var row := DocumentRowOf(tender, docs[0].fields);
      var d1 := db.(documents := db.documents[db.nextDocument := row], nextDocument := db.nextDocument + 1);
      AddDocumentsKeeps(d1, tender, docs[1..]);
    } else if docs != [] && !docs[0].Obj? {
      AddDocumentsKeeps(db, tender, docs[1..]);
    }
  }

  /** The loop finishes exactly when every reference row can be bound. */
  lemma {:induction false} AddDocumentsOk(db: Db, tender: int, docs: seq<Value>)
    ensures AddDocuments(db, tender, docs).Ok? <==> AllDocumentsBindable(DocumentRows(tender, docs))
    decreases |docs|
  {
    if docs != [] {
      var rest := DocumentRows(tender, docs[1..]);
      if !docs[0].Obj? {
        assert DocumentRows(tender, docs) == rest;
        assert AddDocuments(db, tender, docs) == AddDocuments(db, tender, docs[1..]);
        AddDocumentsOk(db, tender, docs[1..]);
      } else {
        var row := DocumentRowOf(tender, docs[0].fields);
        assert DocumentRows(tender, docs) == [row] + rest;
        AllDocumentsBindableCons(row, rest);
        if DocumentBindable(row) {
          var d1 := db.(documents := db.documents[db.nextDocument := row], nextDocument := db.nextDocument + 1);
          assert AddDocuments(db, tender, docs) == AddDocuments(d1, tender, docs[1..]);
          AddDocumentsOk(d1, tender, docs[1..]);
        }
      }
    }
  }

  /** A finished loop stores the reference rows under consecutive ids from the counter on. */
  lemma AddDocumentsRows(db: Db, tender: int, docs: seq<Value>)
    requires Fresh(db)
    ensures AddDocuments(db, tender, docs).Ok? ==>
      AddDocuments(db, tender, docs).db.nextDocument == db.nextDocument + |DocumentRows(tender, docs)|
    ensures AddDocuments(db, tender, docs).Ok? ==>
      forall k :: db.nextDocument <= k < db.nextDocument + |DocumentRows(tender, docs)| ==>
        k in AddDocuments(db, tender, docs).db.documents
        && AddDocuments(db, tender, docs).db.documents[k] == DocumentRows(tender, docs)[k - db.nextDocument]
  {
    AddDocumentsCount(db, tender, docs);
    AddDocumentsPlaced(db, tender, docs);
  }

  /** A finished loop advances the document counter once per reference row. */
  lemma {:induction false} AddDocumentsCount(db: Db, tender: int, docs: seq<Value>)
    ensures AddDocuments(db, tender, docs).Ok? ==>
      AddDocuments(db, tender, docs).db.nextDocument == db.nextDocument + |DocumentRows(tender, docs)|
    decreases |docs|
  {
    if docs != [] {
      var rest := DocumentRows(tender, docs[1..]);
      if !docs[0].Obj? {
        assert DocumentRows(tender, docs) == rest;
        AddDocumentsCount(db, tender, docs[1..]);
      } else {
        var row := DocumentRowOf(tender, docs[0].fields);
        assert DocumentRows(tender, docs) == [row] + rest;
        if DocumentBindable(row) {
          var d1 := db.(documents := db.documents[db.nextDocument := row], nextDocument := db.nextDocument + 1);
          assert AddDocuments(db, tender, docs) == AddDocuments(d1, tender, docs[1..]);
          AddDocumentsCount(d1, tender, docs[1..]);
        }
      }
    }
  }

  /** A finished run holds `rows` under consecutive document ids from `start` on. */
  predicate RowsPlaced(start: int, r: Run, rows: seq<DocumentRow>) {
    r.Ok? ==>
      forall k :: start <= k < start + |rows| ==>
        k in r.db.documents && r.db.documents[k] == rows[k - start]
  }

  /** Each reference row of a finished loop sits at its id. */
  lemma {:induction false} AddDocumentsPlaced(db: Db, tender: int, docs: seq<Value>)
    requires Fresh(db)
    ensures RowsPlaced(db.nextDocument, AddDocuments(db, tender, docs), DocumentRows(tender, docs))
    decreases |docs|
  {
    if docs == [] {
      assert |DocumentRows(tender, docs)| == 0;
    } else {
      var r := AddDocuments(db, tender, docs);
      var rest := DocumentRows(tender, docs[1..]);
      AddDocumentsStep(db, tender, docs);
      if !docs[0].Obj? {
        AddDocumentsPlaced(db, tender, docs[1..]);
      } else if DocumentBindable(DocumentRowOf(tender, docs[0].fields)) && r.Ok? {
        var row := DocumentRowOf(tender, docs[0].fields);
        var d1 := StoreDocument(db, row);
        AddDocumentsPlaced(d1, tender, docs[1..]);
        AddDocumentsKeeps(d1, tender, docs[1..]);
        RowsFrom(db.nextDocument, r, row, rest);
      }
    }
  }

  /** The store after one reference row is inserted under the next id. */
  function StoreDocument(db: Db, row: DocumentRow): (d: Db)
    ensures d.nextDocument == db.nextDocument + 1
    ensures db.nextDocument in d.documents && d.documents[db.nextDocument] == row
    ensures Fresh(db) ==> Fresh(d)
  {
    db.(documents := db.documents[db.nextDocument := row], nextDocument := db.nextDocument + 1)
  }

  /** One round of the loop over the reference list. */
  lemma AddDocumentsStep(db: Db, tender: int, docs: seq<Value>)
    requires docs != []
    ensures !docs[0].Obj? ==>
      && DocumentRows(tender, docs) == DocumentRows(tender, docs[1..])
      && AddDocuments(db, tender, docs) == AddDocuments(db, tender, docs[1..])
    ensures docs[0].Obj? ==> var row := DocumentRowOf(tender, docs[0].fields);
      && DocumentRows(tender, docs) == [row] + DocumentRows(tender, docs[1..])
      && AddDocuments(db, tender, docs) ==
        if DocumentBindable(row) then AddDocuments(StoreDocument(db, row), tender, docs[1..]) else Fail(db)
  {
  }

  /** A row stored at `start` followed by `rest` stored from `start + 1` on. */
  lemma RowsFrom(start: int, r: Run, row: DocumentRow, rest: seq<DocumentRow>)
    requires r.Ok? ==> start in r.db.documents && r.db.documents[start] == row
    requires RowsPlaced(start + 1, r, rest)
    ensures RowsPlaced(start, r, [row] + rest)
  {
    var rows := [row] + rest;
    if r.Ok? {
      forall k | start <= k < start + |rows| ensures k in r.db.documents && r.db.documents[k] == rows[k - start] {
        if k > start {
          assert rows[k - start] == rest[k - (start + 1)];
        }
      }
    }
  }

  function DocumentsStep(db: Db, tender: int, data: Record, json: Json): (r: Run)
    ensures r.db == db.(documents := r.db.documents, nextDocument := r.db.nextDocument)
    ensures Fresh(db) ==> Fresh(r.db)
  {
    if !HasTruthy(data, "documents") then Ok(db)
    else
      match DocumentItems(data["documents"], json)
      case None => Fail(db)
      case Some(docs) => AddDocuments(db, tender, docs)
  }

  /** The store after the tender row is inserted under the next id. */
  function InsertTender(db: Db, data: Record): (d: Db)
    ensures d.tenders == db.tenders[db.nextTender := InsertedRow(data)] && d.nextTender == db.nextTender + 1
    ensures d == db.(tenders := d.tenders, nextTender := d.nextTender)
    ensures Fresh(db) ==> Fresh(d) && db.nextTender !in db.tenders
  {
    db.(tenders := db.tenders[db.nextTender := InsertedRow(data)], nextTender := db.nextTender + 1)
  }

  /**
   * `create`: insert the tender row, then its categories, contact and
   * documents; the new row's id is returned. Each step can raise, and the
   * rows written before it stay.
   */
  function Create(db: Db, data: Record, json: Json): (o: Outcome<int>)
    ensures !Bindable(data, InsertKeys) ==> o == Raised(db)
    ensures Bindable(data, InsertKeys) ==> o.db.tenders == db.tenders[db.nextTender := InsertedRow(data)]
    ensures o.Done? ==> o.value == db.nextTender
    ensures db.links <= o.db.links && forall p :: p in o.db.links && p !in db.links ==> p.0 == db.nextTender
    ensures Fresh(db) ==> Fresh(o.db) && db.nextTender !in db.tenders
  {
    if !Bindable(data, InsertKeys) then Raised(db)
    else
      var id := db.nextTender;
      match CategoriesStep(InsertTender(db, data), id, data, json)
      case Fail(d) => Raised(d)
      case Ok(d2) =>
        match ContactStep(d2, id, data, json)
        case Fail(d) => Raised(d)
        case Ok(d3) =>
          match DocumentsStep(d3, id, data, json)
          case Fail(d) => Raised(d)
          case Ok(d4) => Done(d4, id)
  }

  /** The categories section is absent or falsy, or iterable with names sqlite can bind. */
  predicate CategoriesAccepted(data: Record, json: Json) {
    !HasTruthy(data, "categories")
    || (var names := CategoryNames(data["categories"], json);
        names.Some? && forall i :: 0 <= i < |names.value| ==> Scalar(names.value[i]))
  }

  predicate ContactBindable(fields: Record) {
    var row := ContactRowOf(0, fields);
    Scalar(row.name) && Scalar(row.email) && Scalar(row.phone)
  }

  /** The contact section is absent or falsy, or a dictionary whose fields sqlite can bind. */
  predicate ContactAccepted(data: Record, json: Json) {
    !HasTruthy(data, "contact")
    || (var fields := ContactData(data["contact"], json); fields.Some? && ContactBindable(fields.value))
  }

  /** The documents section is absent or falsy, or iterable with dictionary entries sqlite can bind. */
  predicate DocumentsAccepted(data: Record, json: Json) {
    !HasTruthy(data, "documents")
    || (var docs := DocumentItems(data["documents"], json);
        docs.Some? && AllDocumentsBindable(DocumentRows(0, docs.value)))
  }

  /** The document entries `create` walks, none when the section is absent or falsy. */
  function DocumentsOf(data: Record, json: Json): seq<Value> {
    if HasTruthy(data, "documents") && DocumentItems(data["documents"], json).Some? then
      DocumentItems(data["documents"], json).value
    else []
  }

  /** Which tender the rows name does not change whether they can be bound. */
  lemma {:induction false} DocumentRowsTender(t: int, u: int, docs: seq<Value>)
    ensures |DocumentRows(t, docs)| == |DocumentRows(u, docs)|
    ensures forall j :: 0 <= j < |DocumentRows(t, docs)| ==>
      DocumentRows(t, docs)[j] == DocumentRows(u, docs)[j].(tenderId := t)
    decreases |docs|
  {
    if docs != [] {
      DocumentRowsTender(t, u, docs[1..]);
    }
  }

  lemma CategoriesStepSpec(db: Db, tender: int, data: Record, json: Json)
    requires Fresh(db)
    ensures var r := CategoriesStep(db, tender, data, json);
      && (r.Ok? <==> CategoriesAccepted(data, json))
      && r.db == db.(categories := r.db.categories, nextCategory := r.db.nextCategory, links := r.db.links)
      && Fresh(r.db) && db.links <= r.db.links
      && (forall p :: p in r.db.links && p !in db.links ==> p.0 == tender)
      && (r.Ok? && HasTruthy(data, "categories") ==>
            var names := CategoryNames(data["categories"], json).value;
            forall i :: 0 <= i < |names| ==>
              exists c :: (tender, c) in r.db.links && c in r.db.categories && r.db.categories[c] == names[i])
  {
    if HasTruthy(data, "categories") && CategoryNames(data["categories"], json).Some? {
      LinkAllLinks(db, tender, CategoryNames(data["categories"], json).value);
    }
  }

  lemma ContactStepSpec(db: Db, tender: int, data: Record, json: Json)
    requires Fresh(db)
    ensures var r := ContactStep(db, tender, data, json);
      && (r.Ok? <==> ContactAccepted(data, json))
      && r.db == db.(contacts := r.db.contacts, nextContact := r.db.nextContact)
      && Fresh(r.db)
      && (!HasTruthy(data, "contact") ==> r.db == db)
      && (r.Ok? && HasTruthy(data, "contact") ==>
            && db.nextContact !in db.contacts
            && r.db.contacts == db.contacts[db.nextContact := ContactRowOf(tender, ContactData(data["contact"], json).value)]
            && r.db.nextContact == db.nextContact + 1)
  {
  }

  lemma DocumentsStepSpec(db: Db, tender: int, data: Record, json: Json)
    requires Fresh(db)
    ensures var r := DocumentsStep(db, tender, data, json);
      var rows := DocumentRows(tender, DocumentsOf(data, json));
      && (r.Ok? <==> DocumentsAccepted(data, json))
      && r.db == db.(documents := r.db.documents, nextDocument := r.db.nextDocument)
      && Fresh(r.db)
      && (forall k :: k in db.documents ==> k in r.db.documents && r.db.documents[k] == db.documents[k])
      && (r.Ok? ==> r.db.nextDocument == db.nextDocument + |rows|)
      && (r.Ok? ==> forall k :: db.nextDocument <= k < db.nextDocument + |rows| ==>
            k in r.db.documents && r.db.documents[k] == rows[k - db.nextDocument])
  {
    if HasTruthy(data, "documents") && DocumentItems(data["documents"], json).Some? {
      var docs := DocumentItems(data["documents"], json).value;
      AddDocumentsKeeps(db, tender, docs);
      AddDocumentsOk(db, tender, docs);
      AddDocumentsRows(db, tender, docs);
      DocumentRowsTender(tender, 0, docs);
    }
  }

  /** `create` returns exactly when the tender can be bound and every section it handles is accepted. */
  lemma CreateReturns(db: Db, data: Record, json: Json)
    requires Fresh(db)
    ensures Create(db, data, json).Done? <==>
      Bindable(data, InsertKeys) && CategoriesAccepted(data, json) && ContactAccepted(data, json) && DocumentsAccepted(data, json)
  {
    if Bindable(data, InsertKeys) {
      var id := db.nextTender;
      var db1 := InsertTender(db, data);
      CategoriesStepSpec(db1, id, data, json);
      var r2 := CategoriesStep(db1, id, data, json);
      if r2.Ok? {
        ContactStepSpec(r2.db, id, data, json);
        var r3 := ContactStep(r2.db, id, data, json);
        if r3.Ok? {
          DocumentsStepSpec(r3.db, id, data, json);
        }
      }
    }
  }

  /**
   * A finished `create` links the tender to a category of each name it was
   * given, stores one contact row when a contact was given (none otherwise),
   * and one document row per dictionary entry, in order.
   */
  lemma CreateChildren(db: Db, data: Record, json: Json)
    requires Fresh(db)
    requires Create(db, data, json).Done?
    ensures var o := Create(db, data, json);
      var id := o.value;
      var rows := DocumentRows(id, DocumentsOf(data, json));
      && (HasTruthy(data, "categories") ==>
            var names := CategoryNames(data["categories"], json).value;
            forall i :: 0 <= i < |names| ==>
              exists c :: (id, c) in o.db.links && c in o.db.categories && o.db.categories[c] == names[i])
      && (HasTruthy(data, "contact") ==>
            o.db.contacts == db.contacts[db.nextContact := ContactRowOf(id, ContactData(data["contact"], json).value)])
      && (!HasTruthy(data, "contact") ==> o.db.contacts == db.contacts)
      && o.db.nextDocument == db.nextDocument + |rows|
      && (forall k :: k in db.documents ==> k in o.db.documents && o.db.documents[k] == db.documents[k])
      && (forall k :: db.nextDocument <= k < db.nextDocument + |rows| ==>
            k in o.db.documents && o.db.documents[k] == rows[k - db.nextDocument])
  {
    CreateLinks(db, data, json);
    CreateContact(db, data, json);
    CreateDocuments(db, data, json);
  }

  /** The categories part of `CreateChildren`. */
  lemma CreateLinks(db: Db, data: Record, json: Json)
    requires Fresh(db)
    requires Create(db, data, json).Done?
    ensures var o := Create(db, data, json);
      HasTruthy(data, "categories") ==>
        var names := CategoryNames(data["categories"], json).value;
        forall i :: 0 <= i < |names| ==>
          exists c :: (o.value, c) in o.db.links && c in o.db.categories && o.db.categories[c] == names[i]
  {
    var id := db.nextTender;
    var db1 := InsertTender(db, data);
    CategoriesStepSpec(db1, id, data, json);
    var r2 := CategoriesStep(db1, id, data, json);
    var r3 := ContactStep(r2.db, id, data, json);
    var r4 := DocumentsStep(r3.db, id, data, json);
    assert r2.Ok? && r3.Ok? && r4.Ok? && Create(db, data, json) == Done(r4.db, id);
  }

  /** The contact part of `CreateChildren`. */
  lemma CreateContact(db: Db, data: Record, json: Json)
    requires Fresh(db)
    requires Create(db, data, json).Done?
    ensures var o := Create(db, data, json);
      && (HasTruthy(data, "contact") ==>
            o.db.contacts == db.contacts[db.nextContact := ContactRowOf(o.value, ContactData(data["contact"], json).value)])
      && (!HasTruthy(data, "contact") ==> o.db.contacts == db.contacts)
  {
    var id := db.nextTender;
    var db1 := InsertTender(db, data);
    var r2 := CategoriesStep(db1, id, data, json);
    ContactStepSpec(r2.db, id, data, json);
    var r3 := ContactStep(r2.db, id, data, json);
    var r4 := DocumentsStep(r3.db, id, data, json);
    assert r2.Ok? && r3.Ok? && r4.Ok? && Create(db, data, json) == Done(r4.db, id);
  }

  /** The documents part of `CreateChildren`. */
  lemma CreateDocuments(db: Db, data: Record, json: Json)
    requires Fresh(db)
    requires Create(db, data, json).Done?
    ensures var o := Create(db, data, json);
      var rows := DocumentRows(o.value, DocumentsOf(data, json));
      && o.db.nextDocument == db.nextDocument + |rows|
      && (forall k :: k in db.documents ==> k in o.db.documents && o.db.documents[k] == db.documents[k])
      && RowsPlaced(db.nextDocument, Ok(o.db), rows)
  {
    var id := db.nextTender;
    var db1 := InsertTender(db, data);
    var r2 := CategoriesStep(db1, id, data, json);
    var r3 := ContactStep(r2.db, id, data, json);
    DocumentsStepSpec(r3.db, id, data, json);
    var r4 := DocumentsStep(r3.db, id, data, json);
    assert r2.Ok? && r3.Ok? && r4.Ok? && Create(db, data, json) == Done(r4.db, id);
    assert r3.db.nextDocument == db.nextDocument && r3.db.documents == db.documents;
    assert RowsPlaced(r3.db.nextDocument, r4, DocumentRows(id, DocumentsOf(data, json)));
  }

  /**
   * How the sections are read: text that is not JSON is one category name,
   * a contact whose name is that text (email and phone `''`), and no
   * documents; a list is walked as it is.
   */
  lemma SectionsFromText(s: string, json: Json, tender: int)
    requires json.loads(s).None?
    ensures CategoryNames(Str(s), json) == Some([Str(s)])
    ensures ContactData(Str(s), json) == Some(map["name" := Str(s)])
    ensures ContactRowOf(tender, ContactData(Str(s), json).value) == ContactRow(tender, Str(s), Str(""), Str(""))
    ensures DocumentItems(Str(s), json) == Some([])
  {
  }

  // ---------------------------------------------------------------------
  // search
  // ---------------------------------------------------------------------

  /**
   * The arguments of `search`: `category` 0 and `status` "" are the falsy
   * values that switch their filter off (Python's `None` included).
   */
  datatype Query = Query(keyword: string, category: int, status: string, limit: int, offset: int)

  /** The text sqlite's `LIKE` sees for a stored value; NULL never matches. */
  function LikeText(v: Value): Option<string> {
    match v
    case Str(s) => Some(s)
    case Int(i) => Some(IntToString(i))
    case Bool(b) => Some(if b then "1" else "0")
    case _ => None
  }

  /** `v LIKE '%keyword%'`: a substring match that ignores ASCII case. */
  predicate Like(v: Value, keyword: string) {
    LikeText(v).Some? && Contains(Lower(LikeText(v).value), Lower(keyword))
  }

  /** The `WHERE` clause of `search` for one tender (the category join holds when some link does). */
  predicate Matches(db: Db, id: int, q: Query)
    requires id in db.tenders
  {
    var t := db.tenders[id];
    && (Like(t.title, q.keyword) || Like(t.description, q.keyword))
    && (q.category != 0 ==> (id, q.category) in db.links)
    && (q.status != "" ==> t.status == Str(q.status))
  }

  /** Byte-wise (code point) text order, sqlite's default collation. */
  predicate TextLess(s: string, t: string)
    decreases |s|
  {
    if |s| == 0 then |t| > 0
    else if |t| == 0 then false
    else if s[0] != t[0] then s[0] < t[0]
    else TextLess(s[1..], t[1..])
  }

  lemma {:induction false} TextLessIrreflexive(s: string)
    ensures !TextLess(s, s)
    decreases |s|
  {
    if |s| > 0 {
      TextLessIrreflexive(s[1..]);
    }
  }

  lemma {:induction false} TextLessTransitive(s: string, t: string, u: string)
    requires TextLess(s, t) && TextLess(t, u)
    ensures TextLess(s, u)
    decreases |s|
  {
    if |s| > 0 && s[0] == t[0] && t[0] == u[0] {
      TextLessTransitive(s[1..], t[1..], u[1..]);
    }
  }

  lemma {:induction false} TextLessTotal(s: string, t: string)
    requires s != t
    ensures TextLess(s, t) || TextLess(t, s)
    decreases |s|
  {
    if |s| > 0 && |t| > 0 && s[0] == t[0] {
      assert s == [s[0]] + s[1..] && t == [t[0]] + t[1..];
      TextLessTotal(s[1..], t[1..]);
    }
  }

  /** sqlite's storage classes in sort order: NULL, numbers, text, then anything else. */
  function Rank(v: Value): int {
    match v
    case Null => 0
    case Bool(_) => 1
    case Int(_) => 1
    case Str(_) => 2
    case _ => 3
  }

  function Numeric(v: Value): int {
    match v
    case Bool(b) => if b then 1 else 0
    case Int(i) => i
    case _ => 0
  }

  /** sqlite's `<` between stored values. */
  predicate SqlLess(x: Value, y: Value) {
    || Rank(x) < Rank(y)
    || (Rank(x) == Rank(y) == 1 && Numeric(x) < Numeric(y))
    || (Rank(x) == Rank(y) == 2 && TextLess(x.s, y.s))
  }

  /** The order is a strict weak order: irreflexive, transitive, and incomparability is transitive. */
  lemma SqlLessOrder(x: Value, y: Value, z: Value)
    ensures !SqlLess(x, x)
    ensures SqlLess(x, y) && SqlLess(y, z) ==> SqlLess(x, z)
    ensures SqlLess(x, z) ==> SqlLess(x, y) || SqlLess(y, z)
  {
    if x.Str? {
      TextLessIrreflexive(x.s);
    }
    if SqlLess(x, y) && SqlLess(y, z) && Rank(x) == Rank(y) == Rank(z) == 2 {
      TextLessTransitive(x.s, y.s, z.s);
    }
    if SqlLess(x, z) && Rank(x) == Rank(y) == Rank(z) == 2 && !SqlLess(x, y) {
      if x.s != y.s {
        TextLessTotal(x.s, y.s);
        TextLessTransitive(y.s, x.s, z.s);
      }
    }
  }

  /**
   * `ORDER BY publish_date DESC`: `a` comes before `b` when its date is
   * larger; rows with equal dates keep row-id order.
   */
  predicate Before(db: Db, a: int, b: int)
    requires a in db.tenders && b in db.tenders
  {
    var x := db.tenders[a].publishDate;
    var y := db.tenders[b].publishDate;
    SqlLess(y, x) || (!SqlLess(x, y) && a < b)
  }

  lemma BeforeOrder(db: Db, a: int, b: int, c: int)
    requires a in db.tenders && b in db.tenders && c in db.tenders
    ensures !Before(db, a, a)
    ensures a != b ==> Before(db, a, b) || Before(db, b, a)
    ensures Before(db, a, b) && Before(db, b, c) ==> Before(db, a, c)
    ensures Before(db, a, b) ==> !SqlLess(db.tenders[a].publishDate, db.tenders[b].publishDate)
  {
    var x, y, z := db.tenders[a].publishDate, db.tenders[b].publishDate, db.tenders[c].publishDate;
    SqlLessOrder(x, y, z);
    SqlLessOrder(z, y, x);
    SqlLessOrder(y, x, z);
    SqlLessOrder(x, z, y);
    SqlLessOrder(z, x, y);
    SqlLessOrder(y, z, x);
    SqlLessOrder(x, y, x);
  }

  predicate AllRows(db: Db, s: seq<int>) {
    forall i :: 0 <= i < |s| ==> s[i] in db.tenders
  }

  /** Each row comes before the next one. */
  predicate Sorted(db: Db, s: seq<int>)
    requires AllRows(db, s)
  {
    forall i :: 0 <= i < |s| - 1 ==> Before(db, s[i], s[i + 1])
  }

  /** Insert one row into a sorted list. */
  function Insert(db: Db, x: int, ys: seq<int>): (r: seq<int>)
    requires x in db.tenders && AllRows(db, ys)
    ensures AllRows(db, r) && multiset(r) == multiset(ys) + multiset{x}
    ensures |r| == |ys| + 1 && (r[0] == x || (|ys| > 0 && r[0] == ys[0]))
  {
    if ys == [] then [x]
    else if Before(db, x, ys[0]) then [x] + ys
    else
      assert ys == [ys[0]] + ys[1..];
      [ys[0]] + Insert(db, x, ys[1..])
  }

  /** Inserting a new row keeps a list sorted. */
  lemma {:induction false} InsertSorted(db: Db, x: int, ys: seq<int>)
    requires x in db.tenders && AllRows(db, ys)
    requires Sorted(db, ys) && x !in ys
    ensures Sorted(db, Insert(db, x, ys))
    decreases |ys|
  {
    if ys != [] && !Before(db, x, ys[0]) {
      var rest := Insert(db, x, ys[1..]);
      InsertSorted(db, x, ys[1..]);
      BeforeOrder(db, x, ys[0], x);
      var r := Insert(db, x, ys);
      assert r == [ys[0]] + rest;
      assert Before(db, ys[0], rest[0]);
      forall i | 1 <= i < |r| - 1 ensures Before(db, r[i], r[i + 1]) {
        assert r[i] == rest[i - 1] && r[i + 1] == rest[i];
      }
    }
  }

  /** Insertion sort by `Before`. */
  function Sort(db: Db, xs: seq<int>): (r: seq<int>)
    requires AllRows(db, xs)
    requires forall i, j :: 0 <= i < j < |xs| ==> xs[i] != xs[j]
    ensures AllRows(db, r) && multiset(r) == multiset(xs) && Sorted(db, r)
  {
    if xs == [] then []
    else
      assert xs == [xs[0]] + xs[1..];
      var rest := Sort(db, xs[1..]);
      assert xs[0] !in multiset(xs[1..]);
      assert xs[0] !in rest by {
        assert multiset(rest) == multiset(xs[1..]);
      }
      InsertSorted(db, xs[0], rest);
      Insert(db, xs[0], rest)
  }

  /** A sorted list is ordered pairwise, so it has no repeated row. */
  lemma {:induction false} SortedPairwise(db: Db, s: seq<int>)
    requires AllRows(db, s) && Sorted(db, s)
    ensures forall i, j :: 0 <= i < j < |s| ==> Before(db, s[i], s[j]) && s[i] != s[j]
    decreases |s|
  {
    if |s| > 1 {
      SortedPairwise(db, s[1..]);
      forall i, j | 0 <= i < j < |s| ensures Before(db, s[i], s[j]) && s[i] != s[j] {
        if i > 0 {
          assert s[i] == s[1..][i - 1] && s[j] == s[1..][j - 1];
        } else if j > 1 {
          assert s[1] == s[1..][0] && s[j] == s[1..][j - 1];
          BeforeOrder(db, s[0], s[1], s[j]);
        }
        BeforeOrder(db, s[i], s[j], s[i]);
      }
    }
  }

  /** The matching tenders in row-id order, scanning from `from`. */
  function MatchesFrom(db: Db, q: Query, from: int): (r: seq<int>)
    ensures AllRows(db, r)
    ensures forall i :: 0 <= i < |r| ==> from <= r[i] < db.nextTender && Matches(db, r[i], q)
    ensures forall i, j :: 0 <= i < j < |r| ==> r[i] < r[j]
    ensures forall id :: from <= id < db.nextTender && id in db.tenders && Matches(db, id, q) ==> id in r
    decreases db.nextTender - from
  {
    if from >= db.nextTender then []
    else
      var rest := MatchesFrom(db, q, from + 1);
      if from in db.tenders && Matches(db, from, q) then [from] + rest else rest
  }

  /** `LIMIT limit OFFSET offset`: a negative offset is 0 and a negative limit means no limit. */
  function Window<T>(s: seq<T>, limit: int, offset: int): (r: seq<T>)
    ensures var o := if offset < 0 then 0 else offset;
      && (o >= |s| ==> r == [])
      && (o < |s| ==> r == s[o..][..if 0 <= limit < |s| - o then limit else |s| - o])
    ensures var o := if offset < 0 then 0 else offset;
      forall i :: 0 <= i < |r| ==> o + i < |s| && r[i] == s[o + i]
  {
    var o := if offset < 0 then 0 else offset;
    if o >= |s| then []
    else if 0 <= limit < |s| - o then s[o..][..limit]
    else s[o..]
  }

  /** `search`. */
  function Search(db: Db, q: Query): (r: seq<int>)
    ensures AllRows(db, r)
  {
    var all := MatchesFrom(db, q, 1);
    Window(Sort(db, all), q.limit, q.offset)
  }

  /** Every result is a tender that matches the query. */
  lemma SearchMatches(db: Db, q: Query)
    ensures var r := Search(db, q);
      forall i :: 0 <= i < |r| ==> Matches(db, r[i], q)
  {
    var all := MatchesFrom(db, q, 1);
    var sorted := Sort(db, all);
    var r := Search(db, q);
    WindowWithin(sorted, q.limit, q.offset);
    SameElements(sorted, all);
    forall i | 0 <= i < |r| ensures Matches(db, r[i], q) {
      assert r[i] in all;
      var k :| 0 <= k < |all| && all[k] == r[i];
    }
  }

  /** A window holds only elements of the list it is cut from. */
  lemma WindowWithin<T>(s: seq<T>, limit: int, offset: int)
    ensures forall i :: 0 <= i < |Window(s, limit, offset)| ==> Window(s, limit, offset)[i] in s
  {
    var r := Window(s, limit, offset);
    var o := if offset < 0 then 0 else offset;
    forall i | 0 <= i < |r| ensures r[i] in s {
      assert r[i] == s[o + i];
    }
  }

  /** Two lists with one multiset have the same elements. */
  lemma SameElements<T>(s: seq<T>, t: seq<T>)
    requires multiset(s) == multiset(t)
    ensures forall x :: x in s ==> x in t
  {
    forall x | x in s ensures x in t {
      assert x in multiset(s);
    }
  }

  /**
   * Results come newest publication date first (row id breaking ties), and
   * no row appears twice.
   */
  lemma SearchOrdered(db: Db, q: Query)
    ensures var r := Search(db, q);
      && (forall i, j :: 0 <= i < j < |r| ==> Before(db, r[i], r[j]) && r[i] != r[j])
      && (forall i, j :: 0 <= i < j < |r| ==> !SqlLess(db.tenders[r[i]].publishDate, db.tenders[r[j]].publishDate))
  {
    var all := MatchesFrom(db, q, 1);
    var sorted := Sort(db, all);
    SortedPairwise(db, sorted);
    var r := Search(db, q);
    var o := if q.offset < 0 then 0 else q.offset;
    forall i, j | 0 <= i < j < |r|
      ensures Before(db, r[i], r[j]) && r[i] != r[j]
      ensures !SqlLess(db.tenders[r[i]].publishDate, db.tenders[r[j]].publishDate)
    {
      assert r[i] == sorted[o + i] && r[j] == sorted[o + j];
      BeforeOrder(db, r[i], r[j], r[j]);
    }
  }

  /**
   * With no offset and a limit that does not cut, every matching tender of
   * a well-formed store is returned, exactly once.
   */
  lemma SearchComplete(db: Db, q: Query)
    requires Fresh(db)
    ensures var r := Search(db, q);
      var n := |MatchesFrom(db, q, 1)|;
      && |r| == (if q.offset >= n then 0 else if 0 <= q.limit < n - (if q.offset < 0 then 0 else q.offset) then q.limit else n - (if q.offset < 0 then 0 else q.offset))
      && (q.offset <= 0 && (q.limit < 0 || q.limit >= n) ==>
            forall id :: id in db.tenders && Matches(db, id, q) ==> id in r)
  {
    var all := MatchesFrom(db, q, 1);
    var sorted := Sort(db, all);
    assert |sorted| == |all| by {
      assert |multiset(sorted)| == |multiset(all)|;
    }
    SameElements(all, sorted);
    forall id | id in db.tenders && Matches(db, id, q) ensures id in sorted {
      assert id in all;
    }
  }

  // ---------------------------------------------------------------------
  // UserModel.update
  // ---------------------------------------------------------------------

  /** A parameterised SQL statement. */
  datatype Statement = Statement(sql: string, params: seq<Value>)

  /** The columns to set, in the order the method looks at the fields; `Null` is an argument left as `None`. */
  function Assignments(email: Value, passwordHash: Value, name: Value): (a: seq<(string, Value)>)
    ensures a == [] <==> email == Null && passwordHash == Null && name == Null
    ensures forall i :: 0 <= i < |a| ==> '?' !in a[i].0
  {
    (if email != Null then [("email", email)] else [])
    + (if passwordHash != Null then [("password_hash", passwordHash)] else [])
    + (if name != Null then [("name", name)] else [])
  }

  const UpdatedAtPart := "updated_at = CURRENT_TIMESTAMP"

  /** `column = ?` for each assignment. */
  function SetParts(a: seq<(string, Value)>): (parts: seq<string>)
    ensures |parts| == |a|
  {
    if a == [] then [] else [a[0].0 + " = ?"] + SetParts(a[1..])
  }

  function SetValues(a: seq<(string, Value)>): (vs: seq<Value>)
    ensures |vs| == |a|
  {
    if a == [] then [] else [a[0].1] + SetValues(a[1..])
  }

  lemma {:induction false} SetValuesAppend(x: seq<(string, Value)>, y: seq<(string, Value)>)
    ensures SetValues(x + y) == SetValues(x) + SetValues(y)
    decreases |x|
  {
    if x != [] {
      assert (x + y)[1..] == x[1..] + y;
      SetValuesAppend(x[1..], y);
    } else {
      assert x + y == y;
    }
  }

  /** The statement for some assignments: each column set, then `updated_at`, for the row `userId`. */
  function UpdateStatement(a: seq<(string, Value)>, userId: Value): Statement {
    Statement("UPDATE users SET " + Join(SetParts(a) + [UpdatedAtPart], ", ") + " WHERE id = ?", SetValues(a) + [userId])
  }

  /** `UserModel.update`: the statement it runs, or None when no field was given (it runs nothing). */
  function UserUpdate(userId: Value, email: Value, passwordHash: Value, name: Value): Option<Statement> {
    var a := Assignments(email, passwordHash, name);
    if a == [] then None else Some(UpdateStatement(a, userId))
  }

  /** Each assignment contributes one placeholder when no column name has one. */
  lemma {:induction false} SetPartsPlaceholders(a: seq<(string, Value)>)
    requires forall i :: 0 <= i < |a| ==> '?' !in a[i].0
    ensures CountAll(SetParts(a), '?') == |a|
    decreases |a|
  {
    if a != [] {
      SetPartsPlaceholders(a[1..]);
      CountAbsent(a[0].0, '?');
      CountAppend(a[0].0, " = ?", '?');
    }
  }

  /** A statement `head` + joined parts + `tail` has the placeholders of the parts and of the tail. */
  lemma StatementPlaceholders(head: string, parts: seq<string>, tail: string)
    requires '?' !in head
    ensures Count(head + Join(parts, ", ") + tail, '?') == CountAll(parts, '?') + Count(tail, '?')
  {
    var body := Join(parts, ", ");
    CountJoin(parts, ", ", '?');
    CountAbsent(head, '?');
    CountAppend(head, body, '?');
    CountAppend(head + body, tail, '?');
  }

  /** Nothing runs exactly when no field is given. */
  lemma UserUpdateNothing(userId: Value, email: Value, passwordHash: Value, name: Value)
    ensures UserUpdate(userId, email, passwordHash, name).None? <==> email == Null && passwordHash == Null && name == Null
  {
  }

  /** The parameters are the given fields in the order email, password hash, name, then the user id. */
  lemma UserUpdateParams(userId: Value, email: Value, passwordHash: Value, name: Value)
    requires UserUpdate(userId, email, passwordHash, name).Some?
    ensures UserUpdate(userId, email, passwordHash, name).value.params ==
      (if email != Null then [email] else []) + (if passwordHash != Null then [passwordHash] else [])
      + (if name != Null then [name] else []) + [userId]
  {
    var e: seq<(string, Value)> := if email != Null then [("email", email)] else [];
    var p: seq<(string, Value)> := if passwordHash != Null then [("password_hash", passwordHash)] else [];
    var n: seq<(string, Value)> := if name != Null then [("name", name)] else [];
    var a := Assignments(email, passwordHash, name);
    assert a == e + p + n;
    SetValuesAppend(e + p, n);
    SetValuesAppend(e, p);
    assert SetValues(a) == (if email != Null then [email] else []) + (if passwordHash != Null then [passwordHash] else [])
                           + (if name != Null then [name] else []);
  }

  /**
   * With column names and fixed pieces free of `?` and a tail holding one,
   * a `SET` statement has one placeholder per assignment plus the tail's.
   */
  lemma {:induction false} SetStatementPlaceholders(a: seq<(string, Value)>, head: string, fixed: string, tail: string)
    requires forall i :: 0 <= i < |a| ==> '?' !in a[i].0
    requires '?' !in head && '?' !in fixed && Count(tail, '?') == 1
    ensures Count(head + Join(SetParts(a) + [fixed], ", ") + tail, '?') == |a| + 1
  {
    SetPartsPlaceholders(a);
    CountAllAppend(SetParts(a), [fixed], '?');
    CountAbsent(fixed, '?');
    assert CountAll([fixed], '?') == Count(fixed, '?') + CountAll([], '?');
    StatementPlaceholders(head, SetParts(a) + [fixed], tail);
  }

  /** The `WHERE` clause holds the statement's last placeholder. */
  lemma WhereIdPlaceholder()
    ensures Count(" WHERE id = ?", '?') == 1
  {
    var w, i := " WHERE ", "id = ";
    assert w + i + "?" == " WHERE id = ?";
    CountAbsent(w + i, '?');
    CountAppend(w + i, "?", '?');
  }

  /** The statement's head holds no placeholder. */
  lemma UpdateHeadFree()
    ensures '?' !in "UPDATE users SET "
  {
    var u, s, t := "UPDATE ", "users ", "SET ";
    assert "UPDATE users SET " == u + s + t;
  }

  /** The `updated_at` assignment holds no placeholder. */
  lemma UpdatedAtFree()
    ensures '?' !in UpdatedAtPart
  {
    var u, c := "updated_at = ", "CURRENT_TIMESTAMP";
    assert UpdatedAtPart == u + c;
  }

  /** The `UPDATE` statement has one placeholder per parameter when no column name has one. */
  lemma UpdateStatementPlaceholders(a: seq<(string, Value)>, userId: Value)
    requires forall i :: 0 <= i < |a| ==> '?' !in a[i].0
    ensures Count(UpdateStatement(a, userId).sql, '?') == |UpdateStatement(a, userId).params|
  {
    WhereIdPlaceholder();
    UpdateHeadFree();
    UpdatedAtFree();
    SetStatementPlaceholders(a, "UPDATE users SET ", UpdatedAtPart, " WHERE id = ?");
  }

  /** The SQL `update` runs has exactly one placeholder per parameter, the last being `WHERE id = ?`. */
  lemma UserUpdatePlaceholders(userId: Value, email: Value, passwordHash: Value, name: Value)
    requires UserUpdate(userId, email, passwordHash, name).Some?
    ensures Count(UserUpdate(userId, email, passwordHash, name).value.sql, '?') ==
      |UserUpdate(userId, email, passwordHash, name).value.params|
  {
    UpdateStatementPlaceholders(Assignments(email, passwordHash, name), userId);
  }
}
