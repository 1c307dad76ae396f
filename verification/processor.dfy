/**
 * The unified processor (scrapers/unified_processor.py): collection from the
 * three sources, standardization into one 13-field shape, and removal of
 * duplicates by the `title_publisher` key.
 */
module UnifiedProcessor {
  import opened Wrappers
  import opened Values
  import Scraping
  import MrGovIl
  import Wizbiz
  import Govi

  // ---------------------------------------------------------------------
  // Standardized records
  // ---------------------------------------------------------------------

  /** The fixed 13-field shape every record is brought into. */
  datatype StdTender = StdTender(
    id: Value,
    source: Value,
    title: Value,
    publisher: Value,
    publishDate: Value,
    submissionDate: Value,
    status: Value,
    url: Value,
    description: Value,
    contact: Value,
    documents: Value,
    categories: Value,
    scrapeDate: Value)

  const StandardKeys: set<string> := {
    "id", "source", "title", "publisher", "publish_date", "submission_date",
    "status", "url", "description", "contact", "documents", "categories",
    "scrape_date"
  }

  /** The dictionary the processor builds for a standardized record. */
  function ToRecord(t: StdTender): (r: Record)
    ensures r.Keys == StandardKeys
  {
    map[
      "id" := t.id, "source" := t.source, "title" := t.title,
      "publisher" := t.publisher, "publish_date" := t.publishDate,
      "submission_date" := t.submissionDate, "status" := t.status,
      "url" := t.url, "description" := t.description, "contact" := t.contact,
      "documents" := t.documents, "categories" := t.categories,
      "scrape_date" := t.scrapeDate]
  }

  /** Each field of a standardized record sits under its key. */
  lemma ToRecordFields(t: StdTender)
    ensures var m := ToRecord(t);
      && m["id"] == t.id && m["source"] == t.source && m["title"] == t.title
      && m["publisher"] == t.publisher && m["publish_date"] == t.publishDate
      && m["submission_date"] == t.submissionDate && m["status"] == t.status
      && m["url"] == t.url && m["description"] == t.description && m["contact"] == t.contact
      && m["documents"] == t.documents && m["categories"] == t.categories
      && m["scrape_date"] == t.scrapeDate
  {
  }

  /** The value a standardized field takes when the input lacks it and has no fallback. */
  function Default(k: string, now: string): Value {
    if k == "contact" then Obj(map[])
    else if k == "documents" || k == "categories" then Arr([])
    else if k == "scrape_date" then Str(now)
    else Str("")
  }

  /**
   * One raw record in the standard shape. `now` is the formatted clock
   * reading used when the record carries no `scrape_date`.
   */
  function Standardize(r: Record, now: string): (t: StdTender)
    // fallbacks apply only when the key itself is absent
    ensures "title" in r ==> t.title == r["title"]
    ensures "title" !in r && "description" in r ==> t.title == r["description"]
    ensures "url" in r ==> t.url == r["url"]
    ensures "url" !in r && "details_url" in r ==> t.url == r["details_url"]
    ensures "description" in r ==> t.description == r["description"]
    ensures "description" !in r && "full_description" in r ==> t.description == r["full_description"]
  {
    StdTender(
      Get(r, "id", Str("")),
      Get(r, "source", Str("")),
      Get(r, "title", Get(r, "description", Str(""))),
      Get(r, "publisher", Str("")),
      Get(r, "publish_date", Str("")),
      Get(r, "submission_date", Str("")),
      Get(r, "status", Str("")),
      Get(r, "url", Get(r, "details_url", Str(""))),
      Get(r, "description", Get(r, "full_description", Str(""))),
      Get(r, "contact", Obj(map[])),
      Get(r, "documents", Arr([])),
      Get(r, "categories", Arr([])),
      Get(r, "scrape_date", Str(now)))
  }

  /** A standard key present in the input keeps its value, even when that value is empty. */
  lemma StandardizeKeepsPresent(r: Record, now: string, k: string)
    requires k in StandardKeys && k in r
    ensures ToRecord(Standardize(r, now))[k] == r[k]
  {
    ToRecordFields(Standardize(r, now));
    StandardKeysListed(k);
  }

  /** The thirteen standard keys, one by one. */
  lemma StandardKeysListed(k: string)
    requires k in StandardKeys
    ensures || k == "id" || k == "source" || k == "title" || k == "publisher"
            || k == "publish_date" || k == "submission_date" || k == "status" || k == "url"
            || k == "description" || k == "contact" || k == "documents" || k == "categories"
            || k == "scrape_date"
  {
  }

  /**
   * An absent key with no fallback takes its documented empty default, and
   * keys outside the standard 13 (such as `tender_type`) are dropped.
   */
  lemma StandardizeDefaults(r: Record, now: string, k: string)
    requires k !in r
    ensures k in StandardKeys && k != "title" && k != "url" && k != "description" ==>
              ToRecord(Standardize(r, now))[k] == Default(k, now)
    ensures k !in StandardKeys ==> k !in ToRecord(Standardize(r, now))
  {
    ToRecordFields(Standardize(r, now));
    if k in StandardKeys {
      StandardKeysListed(k);
    }
  }

  /** With neither a key nor its fallback present, the field is the empty string. */
  lemma StandardizeEmptyFallbacks(r: Record, now: string)
    ensures "title" !in r && "description" !in r ==> Standardize(r, now).title == Str("")
    ensures "url" !in r && "details_url" !in r ==> Standardize(r, now).url == Str("")
    ensures "description" !in r && "full_description" !in r ==> Standardize(r, now).description == Str("")
  {
  }

  /** Standardizing the dictionary of a standardized record gives it back, whatever the clock. */
  lemma StandardizeRoundTrip(t: StdTender, now: string)
    ensures Standardize(ToRecord(t), now) == t
  {
    ToRecordFields(t);
  }

  /** Standardization is idempotent, even under a different clock reading. */
  lemma StandardizeIdempotent(r: Record, now: string, later: string)
    ensures Standardize(ToRecord(Standardize(r, now)), later) == Standardize(r, now)
  {
    StandardizeRoundTrip(Standardize(r, now), later);
  }

  /** `standardize_tenders`: one standardized record per input, in input order. */
  function StandardizeTenders(rs: seq<Record>, now: string): (ts: seq<StdTender>)
    ensures |ts| == |rs|
    ensures forall i :: 0 <= i < |rs| ==> ts[i] == Standardize(rs[i], now)
  {
    seq(|rs|, i requires 0 <= i < |rs| => Standardize(rs[i], now))
  }

  // ---------------------------------------------------------------------
  // Duplicate removal
  // ---------------------------------------------------------------------

  /** The values of a standardized record, in field order (`tender.values()`). */
  function Fields(t: StdTender): seq<Value> {
    [t.id, t.source, t.title, t.publisher, t.publishDate, t.submissionDate,
     t.status, t.url, t.description, t.contact, t.documents, t.categories,
     t.scrapeDate]
  }

  function CountTruthy(vs: seq<Value>): (n: nat)
    ensures n <= |vs|
  {
    if |vs| == 0 then 0
    else (if Truthy(vs[0]) then 1 else 0) + CountTruthy(vs[1..])
  }

  /** How much information a record carries: its number of truthy values. */
  function InfoCount(t: StdTender): nat {
    CountTruthy(Fields(t))
  }

  /** The title and publisher render as text in the duplicate key. */
  predicate Keyable(t: StdTender) {
    Scalar(t.title) && Scalar(t.publisher)
  }

  predicate AllKeyable(ts: seq<StdTender>) {
    forall i :: 0 <= i < |ts| ==> Keyable(ts[i])
  }

  /** The duplicate key `f"{title}_{publisher}"`. */
  function Key(t: StdTender): string
    requires Keyable(t)
  {
    Display(t.title) + "_" + Display(t.publisher)
  }

  /** Two different title/publisher pairs share a key: the key is not injective. */
  lemma KeyCollision()
    ensures var a := StdTender(Str(""), Str(""), Str("a_b"), Str("c"), Str(""), Str(""), Str(""),
                               Str(""), Str(""), Obj(map[]), Arr([]), Arr([]), Str(""));
            var b := a.(title := Str("a"), publisher := Str("b_c"));
            a.title != b.title && Key(a) == Key(b)
  {
    var a := StdTender(Str(""), Str(""), Str("a_b"), Str("c"), Str(""), Str(""), Str(""),
                       Str(""), Str(""), Obj(map[]), Arr([]), Arr([]), Str(""));
    var b := a.(title := Str("a"), publisher := Str("b_c"));
    assert Key(a) == "a_b" + "_" + "c";
    assert Key(b) == "a" + "_" + "b_c";
  }

  /** A record paired with its duplicate key and its truthy-value count. */
  datatype Tagged = Tagged(key: string, info: nat, tender: StdTender)

  function Tag(t: StdTender): (g: Tagged)
    requires Keyable(t)
  {
    Tagged(Key(t), InfoCount(t), t)
  }

  function TagAll(ts: seq<StdTender>): (gs: seq<Tagged>)
    requires AllKeyable(ts)
    ensures |gs| == |ts|
    ensures forall i :: 0 <= i < |ts| ==> gs[i] == Tag(ts[i])
  {
    seq(|ts|, i requires 0 <= i < |ts| => Tag(ts[i]))
  }

  /**
   * One slot of the processor's `unique_tenders` dictionary: the tagged
   * record kept for a key and the input position it came from.
   */
  datatype Slot = Slot(item: Tagged, pos: nat)

  /** Position of the slot holding key `k`, or -1. */
  function SlotOf(acc: seq<Slot>, k: string): (i: int)
    ensures -1 <= i < |acc|
    ensures 0 <= i ==> acc[i].item.key == k
    ensures i < 0 ==> forall j :: 0 <= j < |acc| ==> acc[j].item.key != k
  {
    if |acc| == 0 then -1
    else if acc[|acc| - 1].item.key == k then |acc| - 1
    else SlotOf(acc[..|acc| - 1], k)
  }

  /**
   * One loop iteration: a new key is appended; a known key's record is
   * replaced, in place, only by a record with strictly more truthy values.
   */
  function Step(acc: seq<Slot>, g: Tagged, pos: nat): seq<Slot> {
    var i := SlotOf(acc, g.key);
    if i < 0 then acc + [Slot(g, pos)]
    else if g.info > acc[i].item.info then acc[i := Slot(g, pos)]
    else acc
  }

  /** The dictionary after the loop has visited every record of `gs`. */
  function Slots(gs: seq<Tagged>): seq<Slot>
    decreases |gs|
  {
    if |gs| == 0 then []
    else Step(Slots(gs[..|gs| - 1]), gs[|gs| - 1], |gs| - 1)
  }

  /** `remove_duplicates`: `list(unique_tenders.values())`. */
  function RemoveDuplicates(ts: seq<StdTender>): seq<StdTender>
    requires AllKeyable(ts)
  {
    var s := Slots(TagAll(ts));
    seq(|s|, i requires 0 <= i < |s| => s[i].item.tender)
  }

  // --- reference definitions -------------------------------------------

  /** Record `i` is the first record carrying its key. */
  predicate IsFirst(gs: seq<Tagged>, i: int)
    requires 0 <= i < |gs|
  {
    forall j :: 0 <= j < i ==> gs[j].key != gs[i].key
  }

  /** The distinct keys of `gs`, in the order each first appears. */
  function FirstKeys(gs: seq<Tagged>): seq<string>
    decreases |gs|
  {
    if |gs| == 0 then []
    else FirstKeys(gs[..|gs| - 1]) + (if IsFirst(gs, |gs| - 1) then [gs[|gs| - 1].key] else [])
  }

  /**
   * Record `w` is the one to keep for its key: no record with that key has
   * more truthy values, and every earlier one has strictly fewer.
   */
  predicate Winner(gs: seq<Tagged>, w: int)
    requires 0 <= w < |gs|
  {
    forall j :: 0 <= j < |gs| && gs[j].key == gs[w].key ==>
      gs[j].info <= gs[w].info && (j < w ==> gs[j].info < gs[w].info)
  }

  function SlotKeys(acc: seq<Slot>): seq<string> {
    seq(|acc|, i requires 0 <= i < |acc| => acc[i].item.key)
  }

  predicate DistinctKeys(acc: seq<Slot>) {
    forall i, j :: 0 <= i < j < |acc| ==> acc[i].item.key != acc[j].item.key
  }

  /** Every slot holds the winner of its key, at its input position. */
  predicate SlotsWin(gs: seq<Tagged>, acc: seq<Slot>) {
    forall i :: 0 <= i < |acc| ==> acc[i].pos < |gs| && gs[acc[i].pos] == acc[i].item && Winner(gs, acc[i].pos)
  }

  /** Every key of the input has a slot. */
  predicate Covers(gs: seq<Tagged>, acc: seq<Slot>) {
    forall j :: 0 <= j < |gs| ==> SlotOf(acc, gs[j].key) >= 0
  }

  /** What the loop maintains about its dictionary after visiting `gs`. */
  predicate Inv(gs: seq<Tagged>, acc: seq<Slot>) {
    DistinctKeys(acc) && SlotsWin(gs, acc) && Covers(gs, acc) && SlotKeys(acc) == FirstKeys(gs)
  }

  /** A slot the new record did not take over still holds its key's winner. */
  lemma KeptSlotWins(p: seq<Tagged>, g: Tagged, acc: seq<Slot>, i: int)
    requires DistinctKeys(acc) && SlotsWin(p, acc)
    requires 0 <= i < |acc|
    requires SlotOf(acc, g.key) != i || g.info <= acc[i].item.info
    ensures acc[i].pos < |p + [g]| && (p + [g])[acc[i].pos] == acc[i].item && Winner(p + [g], acc[i].pos)
  {
    var gs := p + [g];
    var w := acc[i].pos;
    assert Winner(p, w);
    forall j | 0 <= j < |gs| && gs[j].key == gs[w].key
      ensures gs[j].info <= gs[w].info && (j < w ==> gs[j].info < gs[w].info)
    {
      if j < |p| {
        assert gs[j] == p[j];
      }
    }
  }

  /** A record that opens or takes over a slot is its key's winner. */
  lemma NewSlotWins(p: seq<Tagged>, g: Tagged, acc: seq<Slot>)
    requires SlotsWin(p, acc) && Covers(p, acc)
    requires var k := SlotOf(acc, g.key);
             k < 0 || g.info > acc[k].item.info
    ensures Winner(p + [g], |p|)
  {
    var gs := p + [g];
    var n := |p|;
    var k := SlotOf(acc, g.key);
    forall j | 0 <= j < |gs| && gs[j].key == g.key
      ensures gs[j].info <= g.info && (j < n ==> gs[j].info < g.info)
    {
      if j < n {
        assert gs[j] == p[j];
        assert SlotOf(acc, p[j].key) >= 0;
        var w := acc[k].pos;
        assert Winner(p, w);
      }
    }
  }

  lemma StepKeepsWinners(p: seq<Tagged>, g: Tagged, acc: seq<Slot>)
    requires Inv(p, acc)
    ensures SlotsWin(p + [g], Step(acc, g, |p|))
  {
    var acc' := Step(acc, g, |p|);
    forall i | 0 <= i < |acc'|
      ensures acc'[i].pos < |p + [g]| && (p + [g])[acc'[i].pos] == acc'[i].item && Winner(p + [g], acc'[i].pos)
    {
      if i < |acc| && acc'[i] == acc[i] {
        KeptSlotWins(p, g, acc, i);
      } else {
        NewSlotWins(p, g, acc);
      }
    }
  }

  /** A record whose key has no slot yet is its key's first and adds that key at the end. */
  lemma FirstKeysNew(p: seq<Tagged>, g: Tagged, acc: seq<Slot>)
    requires Covers(p, acc) && SlotKeys(acc) == FirstKeys(p) && SlotOf(acc, g.key) < 0
    ensures SlotKeys(Step(acc, g, |p|)) == FirstKeys(p + [g])
  {
    var gs := p + [g];
    assert gs[..|p|] == p;
    assert IsFirst(gs, |p|) by {
      forall j | 0 <= j < |p| ensures gs[j].key != g.key {
        assert gs[j] == p[j];
        assert SlotOf(acc, p[j].key) >= 0;
      }
    }
    assert SlotKeys(acc + [Slot(g, |p|)]) == SlotKeys(acc) + [g.key];
  }

  /** A record whose key already has a slot is not its key's first and leaves the keys alone. */
  lemma FirstKeysSeen(p: seq<Tagged>, g: Tagged, acc: seq<Slot>)
    requires SlotsWin(p, acc) && SlotKeys(acc) == FirstKeys(p) && SlotOf(acc, g.key) >= 0
    ensures SlotKeys(Step(acc, g, |p|)) == FirstKeys(p + [g])
  {
    var gs := p + [g];
    assert gs[..|p|] == p;
    var k := SlotOf(acc, g.key);
    var w := acc[k].pos;
    assert gs[w] == p[w];
    assert !IsFirst(gs, |p|);
    assert SlotKeys(Step(acc, g, |p|)) == SlotKeys(acc);
  }

  lemma FirstKeysStep(p: seq<Tagged>, g: Tagged, acc: seq<Slot>)
    requires Inv(p, acc)
    ensures SlotKeys(Step(acc, g, |p|)) == FirstKeys(p + [g])
  {
    if SlotOf(acc, g.key) < 0 {
      FirstKeysNew(p, g, acc);
    } else {
      FirstKeysSeen(p, g, acc);
    }
  }

  lemma StepKeepsCover(p: seq<Tagged>, g: Tagged, acc: seq<Slot>)
    requires DistinctKeys(acc) && Covers(p, acc)
    ensures var acc' := Step(acc, g, |p|);
            DistinctKeys(acc') && Covers(p + [g], acc')
  {
    var gs := p + [g];
    var acc' := Step(acc, g, |p|);
    var k := SlotOf(acc, g.key);
    forall j | 0 <= j < |gs| ensures SlotOf(acc', gs[j].key) >= 0 {
      var m := if j < |p| then SlotOf(acc, p[j].key) else if k < 0 then |acc| else k;
      if j < |p| {
        assert gs[j] == p[j];
      }
      assert acc'[m].item.key == gs[j].key;
    }
  }

  lemma {:induction false} SlotsInv(gs: seq<Tagged>)
    ensures Inv(gs, Slots(gs))
    ensures |Slots(gs)| <= |gs|
    decreases |gs|
  {
    if |gs| > 0 {
      var p := gs[..|gs| - 1];
      var g := gs[|gs| - 1];
      assert gs == p + [g];
      SlotsInv(p);
      StepKeepsWinners(p, g, Slots(p));
      FirstKeysStep(p, g, Slots(p));
      StepKeepsCover(p, g, Slots(p));
    }
  }

  /** On records whose keys are already distinct, the loop keeps every record in order. */
  lemma {:induction false} DistinctUnchanged(gs: seq<Tagged>)
    requires forall i, j :: 0 <= i < j < |gs| ==> gs[i].key != gs[j].key
    ensures |Slots(gs)| == |gs|
    ensures forall i :: 0 <= i < |gs| ==> Slots(gs)[i].item == gs[i]
    decreases |gs|
  {
    if |gs| > 0 {
      var n := |gs| - 1;
      var p := gs[..n];
      DistinctUnchanged(p);
      var acc := Slots(p);
      forall j | 0 <= j < |acc| ensures acc[j].item.key != gs[n].key {
        assert acc[j].item == p[j];
      }
    }
  }

  /**
   * Record `w` is the one `remove_duplicates` should keep for its key: no
   * record with that key has more truthy values, and every earlier one has
   * strictly fewer (so ties keep the earliest).
   */
  predicate KeptFor(ts: seq<StdTender>, w: int)
    requires AllKeyable(ts) && 0 <= w < |ts|
  {
    forall j :: 0 <= j < |ts| && Key(ts[j]) == Key(ts[w]) ==>
      InfoCount(ts[j]) <= InfoCount(ts[w]) && (j < w ==> InfoCount(ts[j]) < InfoCount(ts[w]))
  }

  /** Each output record is the input record at its slot's position, with that slot's key. */
  lemma OutputSlots(ts: seq<StdTender>)
    requires AllKeyable(ts)
    ensures var s := Slots(TagAll(ts));
            var out := RemoveDuplicates(ts);
            && Inv(TagAll(ts), s) && |out| == |s| <= |ts| && AllKeyable(out)
            && forall i :: 0 <= i < |out| ==>
                 s[i].pos < |ts| && out[i] == ts[s[i].pos] && Key(out[i]) == s[i].item.key
                 && KeptFor(ts, s[i].pos)
  {
    var gs := TagAll(ts);
    SlotsInv(gs);
    var s := Slots(gs);
    forall i | 0 <= i < |s|
      ensures s[i].pos < |ts| && s[i].item.tender == ts[s[i].pos] && Key(s[i].item.tender) == s[i].item.key
      ensures KeptFor(ts, s[i].pos)
    {
      var w := s[i].pos;
      assert gs[w] == s[i].item;
      WinnerKept(ts, w);
    }
  }

  /** The winner among the tagged records is the record to keep. */
  lemma WinnerKept(ts: seq<StdTender>, w: int)
    requires AllKeyable(ts) && 0 <= w < |ts| && Winner(TagAll(ts), w)
    ensures KeptFor(ts, w)
  {
    var gs := TagAll(ts);
    forall j | 0 <= j < |ts| && Key(ts[j]) == Key(ts[w])
      ensures InfoCount(ts[j]) <= InfoCount(ts[w]) && (j < w ==> InfoCount(ts[j]) < InfoCount(ts[w]))
    {
      assert gs[j].key == gs[w].key;
    }
  }

  /** The output has at most one record per key, and no more records than the input. */
  lemma RemoveDuplicatesUnique(ts: seq<StdTender>)
    requires AllKeyable(ts)
    ensures var out := RemoveDuplicates(ts);
            |out| <= |ts| && AllKeyable(out)
            && forall i, j :: 0 <= i < j < |out| ==> Key(out[i]) != Key(out[j])
  {
    OutputSlots(ts);
  }

  /**
   * Output keys come in first-occurrence order, even when a later record
   * replaced the one first kept for a key.
   */
  lemma RemoveDuplicatesOrder(ts: seq<StdTender>)
    requires AllKeyable(ts)
    ensures AllKeyable(RemoveDuplicates(ts))
    ensures SeqKeys(RemoveDuplicates(ts)) == FirstKeys(TagAll(ts))
  {
    OutputSlots(ts);
    var s := Slots(TagAll(ts));
    assert SeqKeys(RemoveDuplicates(ts)) == SlotKeys(s);
  }

  /**
   * Every output record is an input record: the one with the most truthy
   * values for its key, the earliest such on a tie.
   */
  lemma RemoveDuplicatesKeepsBest(ts: seq<StdTender>)
    requires AllKeyable(ts)
    ensures var out := RemoveDuplicates(ts);
      forall i :: 0 <= i < |out| ==> exists w :: 0 <= w < |ts| && ts[w] == out[i] && KeptFor(ts, w)
  {
    OutputSlots(ts);
    var s := Slots(TagAll(ts));
    var out := RemoveDuplicates(ts);
    forall i | 0 <= i < |out|
      ensures exists w :: 0 <= w < |ts| && ts[w] == out[i] && KeptFor(ts, w)
    {
      KeptWitness(ts, out[i], s[i].pos);
    }
  }

  lemma KeptWitness(ts: seq<StdTender>, t: StdTender, w: int)
    requires AllKeyable(ts) && 0 <= w < |ts| && ts[w] == t && KeptFor(ts, w)
    ensures exists w :: 0 <= w < |ts| && ts[w] == t && KeptFor(ts, w)
  {
  }

  /** No key is lost: every input key has a record in the output. */
  lemma RemoveDuplicatesKeepsKeys(ts: seq<StdTender>)
    requires AllKeyable(ts)
    ensures var out := RemoveDuplicates(ts);
      AllKeyable(out) && forall j :: 0 <= j < |ts| ==> exists i :: 0 <= i < |out| && Key(out[i]) == Key(ts[j])
  {
    OutputSlots(ts);
    var gs := TagAll(ts);
    var s := Slots(gs);
    var out := RemoveDuplicates(ts);
    forall j | 0 <= j < |ts|
      ensures exists i :: 0 <= i < |out| && Key(out[i]) == Key(ts[j])
    {
      assert Covers(gs, s);
      var i := SlotOf(s, gs[j].key);
      assert Key(out[i]) == Key(ts[j]);
    }
  }

  /** The keys of a list of keyable records. */
  function SeqKeys(ts: seq<StdTender>): seq<string>
    requires AllKeyable(ts)
  {
    seq(|ts|, i requires 0 <= i < |ts| => Key(ts[i]))
  }

  /** Removing duplicates twice is the same as removing them once. */
  lemma RemoveDuplicatesIdempotent(ts: seq<StdTender>)
    requires AllKeyable(ts)
    ensures AllKeyable(RemoveDuplicates(ts))
    ensures RemoveDuplicates(RemoveDuplicates(ts)) == RemoveDuplicates(ts)
  {
    RemoveDuplicatesUnique(ts);
    var out := RemoveDuplicates(ts);
    var gs := TagAll(out);
    DistinctUnchanged(gs);
  }

  /** Two records with one key: the one with more truthy values wins, the first on a tie. */
  lemma {:induction false} DuplicatePair(a: StdTender, b: StdTender)
    requires Keyable(a) && Keyable(b) && Key(a) == Key(b)
    ensures RemoveDuplicates([a, b]) == [if InfoCount(b) > InfoCount(a) then b else a]
  {
    var gs := TagAll([a, b]);
    assert gs[..1] == [Tag(a)];
    assert [Tag(a)][..0] == [];
    assert Slots([Tag(a)]) == [Slot(Tag(a), 0)];
  }

  // ---------------------------------------------------------------------
  // Collection and the whole run
  // ---------------------------------------------------------------------

  /**
   * What one source's collection step observed: the listing call raised,
   * or it returned a list, which (when non-empty) was passed to enrichment,
   * which in turn raised or returned a list.
   */
  datatype SourceRun =
    | ListingRaised
    | Listed(listing: seq<Record>, enriched: Option<seq<Record>>)

  /**
   * `_collect_from_*`: an empty listing, or an exception in either step,
   * contributes nothing.
   */
  function CollectFrom(run: SourceRun): (r: seq<Record>)
    ensures run.ListingRaised? ==> r == []
    ensures run.Listed? && run.listing == [] ==> r == []
    ensures run.Listed? && run.listing != [] && run.enriched.None? ==> r == []
    ensures r != [] ==> run.Listed? && run.listing != [] && run.enriched == Some(r)
  {
    match run
    case ListingRaised => []
    case Listed(listing, enriched) =>
      if listing == [] then [] else enriched.GetOr([])
  }

  /** `collect_all_tenders`: mr.gov.il, then Wizbiz, then Govi. */
  function CollectAll(mrGovIl: SourceRun, wizbiz: SourceRun, govi: SourceRun): seq<Record> {
    CollectFrom(mrGovIl) + CollectFrom(wizbiz) + CollectFrom(govi)
  }

  /**
   * A failing source does not stop the others: whatever happened in the
   * Wizbiz step, the mr.gov.il records come first and the Govi records last,
   * and a Wizbiz failure leaves exactly those two lists.
   */
  lemma CollectAllIsolation(a: SourceRun, b: SourceRun, c: SourceRun)
    ensures var all := CollectAll(a, b, c);
            && all[..|CollectFrom(a)|] == CollectFrom(a)
            && all[|all| - |CollectFrom(c)|..] == CollectFrom(c)
            && |all| == |CollectFrom(a)| + |CollectFrom(b)| + |CollectFrom(c)|
    ensures b.ListingRaised? ==> CollectAll(a, b, c) == CollectFrom(a) + CollectFrom(c)
  {
    var x, y, z := CollectFrom(a), CollectFrom(b), CollectFrom(c);
    ThreeParts(x, y, z);
    if b.ListingRaised? {
      assert y == [];
      assert x + y + z == x + z;
    }
  }

  /** The first and last parts of a three-part concatenation. */
  lemma ThreeParts<T>(x: seq<T>, y: seq<T>, z: seq<T>)
    ensures |x + y + z| == |x| + |y| + |z|
    ensures (x + y + z)[..|x|] == x
    ensures (x + y + z)[|x| + |y|..] == z
  {
    var s := x + y + z;
    assert s == x + (y + z);
    assert s[..|x|] == x;
    assert s[|x| + |y|..] == z;
  }

  /** Every standardized record of a batch can be keyed. */
  predicate BatchKeyable(all: seq<Record>, now: string) {
    AllKeyable(StandardizeTenders(all, now))
  }

  /**
   * `UnifiedTenderProcessor.run` without the file output: nothing when no
   * source produced a record, otherwise the standardized records with
   * duplicates removed.
   */
  function Run(all: seq<Record>, now: string): (out: Option<seq<StdTender>>)
    requires BatchKeyable(all, now)
  {
    if all == [] then None
    else Some(RemoveDuplicates(StandardizeTenders(all, now)))
  }

  /**
   * The run's output is empty only when nothing was collected; otherwise it
   * holds standardized input records, one per key, never more than came in.
   */
  lemma RunSpec(all: seq<Record>, now: string)
    requires BatchKeyable(all, now)
    ensures Run(all, now).None? <==> all == []
    ensures Run(all, now).Some? ==>
      var out := Run(all, now).value;
      && 0 < |out| <= |all|
      && AllKeyable(out)
      && (forall i, j :: 0 <= i < j < |out| ==> Key(out[i]) != Key(out[j]))
      && (forall i :: 0 <= i < |out| ==> exists w :: 0 <= w < |all| && out[i] == Standardize(all[w], now))
  {
    if all != [] {
      var ts := StandardizeTenders(all, now);
      var out := RemoveDuplicates(ts);
      RemoveDuplicatesUnique(ts);
      RemoveDuplicatesKeepsBest(ts);
      forall i | 0 <= i < |out|
        ensures exists w :: 0 <= w < |all| && out[i] == Standardize(all[w], now)
      {
        var w :| 0 <= w < |ts| && ts[w] == out[i] && KeptFor(ts, w);
        assert out[i] == Standardize(all[w], now);
      }
      RemoveDuplicatesNonEmpty(ts);
    }
  }

  /** A non-empty batch keeps at least one record. */
  lemma RemoveDuplicatesNonEmpty(ts: seq<StdTender>)
    requires AllKeyable(ts) && ts != []
    ensures 0 < |RemoveDuplicates(ts)|
  {
    RemoveDuplicatesKeepsKeys(ts);
    var out := RemoveDuplicates(ts);
    var i :| 0 <= i < |out| && Key(out[i]) == Key(ts[0]);
  }

  // ---------------------------------------------------------------------
  // The three sources at collect_all_tenders' defaults
  // ---------------------------------------------------------------------

  /** `collect_all_tenders(max_pages=3, max_details=10)`. */
  const MaxPages := 3
  const MaxDetails := 10

  /**
   * What a source's collection step observes when its listing crawl ends
   * with `crawl` and `enrich` is its `enrich_tenders_with_details`; None
   * when the crawl hangs, so that the step never returns.
   */
  function SourceRunOf(crawl: Scraping.Crawl, enrich: seq<Record> -> seq<Record>): Option<SourceRun> {
    match crawl
    case Hangs(_) => None
    case Done(ts, _) => Some(Listed(ts, Some(enrich(ts))))
  }

  /** `_collect_from_mr_gov_il`: the listing from page 1, then details for the first `MaxDetails` records. */
  function MrGovIlRun(listing: string -> Scraping.Response<MrGovIl.ListingPage>,
                      details: string -> Scraping.Response<MrGovIl.DetailPage>, now: string): Option<SourceRun> {
    SourceRunOf(MrGovIl.FetchSearchResults(listing, 1, MaxPages, now),
                ts => MrGovIl.EnrichTenders(ts, Some(MaxDetails), details))
  }

  /** `_collect_from_wizbiz`. */
  function WizbizRun(listing: string -> Scraping.Response<Wizbiz.ListingPage>,
                     details: string -> Scraping.Response<Wizbiz.DetailPage>, now: string): Option<SourceRun> {
    SourceRunOf(Wizbiz.FetchSearchResults(listing, 1, MaxPages, now),
                ts => Wizbiz.EnrichTenders(ts, Some(MaxDetails), details))
  }

  /** `_collect_from_govi`. */
  function GoviRun(listing: string -> Scraping.Response<Govi.ListingPage>,
                   details: string -> Scraping.Response<Govi.DetailPage>, now: string): Option<SourceRun> {
    SourceRunOf(Govi.FetchSearchResults(listing, 1, MaxPages, now),
                ts => Govi.EnrichTenders(ts, Some(MaxDetails), details))
  }

  /** How each site answers listing and detail requests. */
  datatype Sites = Sites(
    mrGovIlListing: string -> Scraping.Response<MrGovIl.ListingPage>,
    mrGovIlDetails: string -> Scraping.Response<MrGovIl.DetailPage>,
    wizbizListing: string -> Scraping.Response<Wizbiz.ListingPage>,
    wizbizDetails: string -> Scraping.Response<Wizbiz.DetailPage>,
    goviListing: string -> Scraping.Response<Govi.ListingPage>,
    goviDetails: string -> Scraping.Response<Govi.DetailPage>)

  /** `collect_all_tenders` against `sites`: None when one of the crawls hangs. */
  function CollectSites(sites: Sites, now: string): Option<seq<Record>> {
    var a := MrGovIlRun(sites.mrGovIlListing, sites.mrGovIlDetails, now);
    var b := WizbizRun(sites.wizbizListing, sites.wizbizDetails, now);
    var c := GoviRun(sites.goviListing, sites.goviDetails, now);
    if a.Some? && b.Some? && c.Some? then Some(CollectAll(a.value, b.value, c.value)) else None
  }

  /** The smaller of a listing's length and `MaxDetails`. */
  function Capped(n: nat): nat {
    if n < MaxDetails then n else MaxDetails
  }

  /**
   * A finished crawl whose records go through `Scraping.Enrich` with the
   * `MaxDetails` cap contributes its first `MaxDetails` records, each merged
   * with its details when its `gate` field is truthy.
   */
  lemma SourceContribution(crawl: Scraping.Crawl, gate: string, fetch: Value -> Record)
    requires crawl.Done?
    ensures var ts := crawl.tenders;
      var out := CollectFrom(Listed(ts, Some(Scraping.Enrich(ts, Some(MaxDetails), gate, fetch))));
      && |out| == Capped(|ts|)
      && forall i :: 0 <= i < |out| ==>
           out[i] == if HasTruthy(ts[i], gate) then Scraping.Merge(ts[i], fetch(ts[i][gate])) else ts[i]
  {
    Scraping.EnrichSpec(crawl.tenders, Some(MaxDetails), gate, fetch);
  }

  /**
   * mr.gov.il at the defaults: without ignored replies the step returns,
   * having requested at most `MaxPages` listing pages, and contributes the
   * first `MaxDetails` listed records, each merged with its detail page
   * when it has a `url`.
   */
  lemma MrGovIlContribution(listing: string -> Scraping.Response<MrGovIl.ListingPage>,
                            details: string -> Scraping.Response<MrGovIl.DetailPage>, now: string)
    requires Scraping.NoIgnoredReplies(MrGovIl.ListingAdapter(now), listing, 1, MaxPages)
    ensures var crawl := MrGovIl.FetchSearchResults(listing, 1, MaxPages, now);
      var run := MrGovIlRun(listing, details, now);
      && crawl.Done? && |crawl.requested| <= MaxPages && run.Some?
      && |CollectFrom(run.value)| == Capped(|crawl.tenders|)
      && forall i :: 0 <= i < |CollectFrom(run.value)| ==>
           CollectFrom(run.value)[i] ==
             if HasTruthy(crawl.tenders[i], "url")
             then Scraping.Merge(crawl.tenders[i], MrGovIl.Fetcher(details)(crawl.tenders[i]["url"]))
             else crawl.tenders[i]
  {
    MrGovIl.FetchSearchResultsSpec(listing, 1, MaxPages, now);
    SourceContribution(MrGovIl.FetchSearchResults(listing, 1, MaxPages, now), "url", MrGovIl.Fetcher(details));
  }

  /** Wizbiz at the defaults; its detail link is `details_url`. */
  lemma WizbizContribution(listing: string -> Scraping.Response<Wizbiz.ListingPage>,
                           details: string -> Scraping.Response<Wizbiz.DetailPage>, now: string)
    requires Scraping.NoIgnoredReplies(Wizbiz.ListingAdapter(now), listing, 1, MaxPages)
    ensures var crawl := Wizbiz.FetchSearchResults(listing, 1, MaxPages, now);
      var run := WizbizRun(listing, details, now);
      && crawl.Done? && |crawl.requested| <= MaxPages && run.Some?
      && |CollectFrom(run.value)| == Capped(|crawl.tenders|)
      && forall i :: 0 <= i < |CollectFrom(run.value)| ==>
           CollectFrom(run.value)[i] ==
             if HasTruthy(crawl.tenders[i], "details_url")
             then Scraping.Merge(crawl.tenders[i], Wizbiz.Fetcher(details)(crawl.tenders[i]["details_url"]))
             else crawl.tenders[i]
  {
    Wizbiz.FetchSearchResultsSpec(listing, 1, MaxPages, now);
    SourceContribution(Wizbiz.FetchSearchResults(listing, 1, MaxPages, now), "details_url", Wizbiz.Fetcher(details));
  }

  /** Govi at the defaults. */
  lemma GoviContribution(listing: string -> Scraping.Response<Govi.ListingPage>,
                         details: string -> Scraping.Response<Govi.DetailPage>, now: string)
    requires Scraping.NoIgnoredReplies(Govi.ListingAdapter(now), listing, 1, MaxPages)
    ensures var crawl := Govi.FetchSearchResults(listing, 1, MaxPages, now);
      var run := GoviRun(listing, details, now);
      && crawl.Done? && |crawl.requested| <= MaxPages && run.Some?
      && |CollectFrom(run.value)| == Capped(|crawl.tenders|)
      && forall i :: 0 <= i < |CollectFrom(run.value)| ==>
           CollectFrom(run.value)[i] ==
             if HasTruthy(crawl.tenders[i], "url")
             then Scraping.Merge(crawl.tenders[i], Govi.Fetcher(details)(crawl.tenders[i]["url"]))
             else crawl.tenders[i]
  {
    Govi.FetchSearchResultsSpec(listing, 1, MaxPages, now);
    SourceContribution(Govi.FetchSearchResults(listing, 1, MaxPages, now), "url", Govi.Fetcher(details));
  }

  /**
   * The whole collection returns exactly when no crawl hangs, and then it
   * holds the capped contributions in source order, so never more than
   * `3 * MaxDetails` records.
   */
  lemma CollectSitesSpec(sites: Sites, now: string)
    ensures var r := CollectSites(sites, now);
      && (r.None? <==>
            || MrGovIl.FetchSearchResults(sites.mrGovIlListing, 1, MaxPages, now).Hangs?
            || Wizbiz.FetchSearchResults(sites.wizbizListing, 1, MaxPages, now).Hangs?
            || Govi.FetchSearchResults(sites.goviListing, 1, MaxPages, now).Hangs?)
      && (r.Some? ==>
            |r.value| == Capped(|MrGovIl.FetchSearchResults(sites.mrGovIlListing, 1, MaxPages, now).tenders|)
                         + Capped(|Wizbiz.FetchSearchResults(sites.wizbizListing, 1, MaxPages, now).tenders|)
                         + Capped(|Govi.FetchSearchResults(sites.goviListing, 1, MaxPages, now).tenders|)
            && |r.value| <= 3 * MaxDetails)
  {
    var a := MrGovIlRun(sites.mrGovIlListing, sites.mrGovIlDetails, now);
    var b := WizbizRun(sites.wizbizListing, sites.wizbizDetails, now);
    var c := GoviRun(sites.goviListing, sites.goviDetails, now);
    if a.Some? && b.Some? && c.Some? {
      var ca := MrGovIl.FetchSearchResults(sites.mrGovIlListing, 1, MaxPages, now);
      var cb := Wizbiz.FetchSearchResults(sites.wizbizListing, 1, MaxPages, now);
      var cc := Govi.FetchSearchResults(sites.goviListing, 1, MaxPages, now);
      SourceContribution(ca, "url", MrGovIl.Fetcher(sites.mrGovIlDetails));
      SourceContribution(cb, "details_url", Wizbiz.Fetcher(sites.wizbizDetails));
      SourceContribution(cc, "url", Govi.Fetcher(sites.goviDetails));
      CollectAllIsolation(a.value, b.value, c.value);
    }
  }
}
