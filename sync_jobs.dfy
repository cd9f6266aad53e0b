/**
 * The Simplify job-feed sync: the fetched JSON is spot-checked, its visible entries
 * are mapped to listing rows and upserted in batches of 50 keyed by
 * `(source, sourceId)`, and afterwards every Simplify row whose id is no longer in
 * the feed is marked inactive.
 */
module SyncJobs {
  import opened Wrappers
  import opened JsText
  import opened JsonValue
  import opened Ordering

  // ---------------------------------------------------------------------------
  // validateSimplifyData

  /** `typeof first === "object" && first !== null` and string `id`, `company_name`,
      `title` and `url`. */
  predicate LooksLikeListing(v: Json) {
    (v.Obj? || v.Arr?)
    && Field(v, "id").Str? && Field(v, "company_name").Str?
    && Field(v, "title").Str? && Field(v, "url").Str?
  }

  /** `validateSimplifyData`: an array, and when it has entries, the first looks like a
      listing. The other entries are not looked at. */
  function Validate(data: Json): (ok: bool)
    ensures !data.Arr? ==> !ok
    ensures data == Arr([]) ==> ok
    ensures data.Arr? && |data.items| > 0 ==> (ok <==> LooksLikeListing(data.items[0]))
  {
    data.Arr? && (|data.items| == 0 || LooksLikeListing(data.items[0]))
  }

  /** Every entry of an array has the required shape. */
  predicate AllLookLikeListings(items: seq<Json>) {
    forall i | 0 <= i < |items| :: LooksLikeListing(items[i])
  }

  /** The spot check accepts every array the full check accepts, and also arrays whose
      later entries are anything at all, `null` included. */
  lemma ValidateSpotCheck(items: seq<Json>, rest: seq<Json>)
    requires AllLookLikeListings(items)
    ensures Validate(Arr(items))
    ensures items != [] ==> Validate(Arr([items[0]] + rest))
  {
    if items != [] {
      assert ([items[0]] + rest)[0] == items[0];
    }
  }

  /** An array of the object shape is never taken for a listing: its properties are
      `undefined`. */
  lemma ArrayIsNotListing(items: seq<Json>)
    ensures !LooksLikeListing(Arr(items))
  {
    assert Field(Arr(items), "id") == Undefined;
  }

  // ---------------------------------------------------------------------------
  // mapSimplifyListing

  /** The value stored in `datePosted`: `new Date(n * 1000)` for a number of seconds. A
      truthy value that is not a number goes through JavaScript's numeric coercion,
      which is not modelled and is kept as the value itself. */
  datatype Stamp = Millis(ms: int) | CoercedDate(v: Json)

  /** What `mapSimplifyListing` returns. `locations` is the value handed to
      `JSON.stringify`. */
  datatype Mapped = Mapped(
    source: string,
    sourceId: Json,
    company: Json,
    title: Json,
    locations: Json,
    url: Json,
    category: Json,
    sponsorship: Json,
    active: Json,
    datePosted: Option<Stamp>)

  /** `date_posted ? new Date(date_posted * 1000) : null`. */
  function DatePosted(v: Json): (d: Option<Stamp>)
    ensures d.None? <==> !Truthy(v)
    ensures v.Num? && v.n != 0 ==> d == Some(Millis(v.n * 1000))
    ensures v == Num(0) || v == Undefined || v == Null ==> d.None?
  {
    if !Truthy(v) then None
    else if v.Num? then Some(Millis(v.n * 1000))
    else Some(CoercedDate(v))
  }

  /** `mapSimplifyListing(entry)`. */
  function MapListing(e: Json): (m: Mapped)
    requires !Nullish(e)
    ensures m.source == "simplify" && m.sourceId == Field(e, "id")
    ensures m.company == Field(e, "company_name") && m.title == Field(e, "title")
    ensures m.url == Field(e, "url")
    ensures Nullish(Field(e, "locations")) ==> m.locations == Arr([])
    ensures !Nullish(Field(e, "locations")) ==> m.locations == Field(e, "locations")
    ensures Nullish(Field(e, "category")) ==> m.category == Null
    ensures !Nullish(Field(e, "category")) ==> m.category == Field(e, "category")
    ensures Nullish(Field(e, "sponsorship")) ==> m.sponsorship == Null
    ensures !Nullish(Field(e, "sponsorship")) ==> m.sponsorship == Field(e, "sponsorship")
    ensures Nullish(Field(e, "active")) ==> m.active == Bool(true)
    ensures !Nullish(Field(e, "active")) ==> m.active == Field(e, "active")
    ensures m.datePosted == DatePosted(Field(e, "date_posted"))
  {
    Mapped(
      "simplify",
      Field(e, "id"),
      Field(e, "company_name"),
      Field(e, "title"),
      Coalesce(Field(e, "locations"), Arr([])),
      Field(e, "url"),
      Coalesce(Field(e, "category"), Null),
      Coalesce(Field(e, "sponsorship"), Null),
      Coalesce(Field(e, "active"), Bool(true)),
      DatePosted(Field(e, "date_posted")))
  }

  /** The mapping of every entry, in order. */
  function MapAll(xs: seq<Json>): (ms: seq<Mapped>)
    requires forall i | 0 <= i < |xs| :: !Nullish(xs[i])
    ensures |ms| == |xs|
    ensures forall i | 0 <= i < |xs| :: ms[i] == MapListing(xs[i])
  {
    seq(|xs|, k requires 0 <= k < |xs| => MapListing(xs[k]))
  }

  /** The `sourceId`s, in order: what the loop pushes onto `sourceIds`. */
  function Ids(ms: seq<Mapped>): (ids: seq<Json>)
    ensures |ids| == |ms|
    ensures forall i | 0 <= i < |ms| :: ids[i] == ms[i].sourceId
  {
    if ms == [] then [] else Ids(ms[..|ms| - 1]) + [ms[|ms| - 1].sourceId]
  }

  // ---------------------------------------------------------------------------
  // The visible filter

  /** No entry is `null` or `undefined`, so reading `is_visible` does not throw. */
  predicate NoneThrow(items: seq<Json>) {
    forall i | 0 <= i < |items| :: !Nullish(items[i])
  }

  predicate IsVisible(e: Json)
    requires !Nullish(e)
  {
    Field(e, "is_visible") != Bool(false)
  }

  /** `raw.filter((entry) => entry.is_visible !== false)`. */
  function Visible(items: seq<Json>): (r: seq<Json>)
    requires NoneThrow(items)
    ensures |r| <= |items|
    ensures NoneThrow(r)
  {
    if items == [] then []
    else
      var front := Visible(items[..|items| - 1]);
      var last := items[|items| - 1];
      if IsVisible(last) then front + [last] else front
  }

  /** An entry survives the filter exactly when it is in the input and its
      `is_visible` is not `false`; a missing `is_visible` counts as visible. */
  lemma {:induction false} VisibleMembers(items: seq<Json>, e: Json)
    requires NoneThrow(items)
    ensures e in Visible(items) <==> e in items && IsVisible(e)
  {
    if items != [] {
      var front := items[..|items| - 1];
      assert items == front + [items[|items| - 1]];
      VisibleMembers(front, e);
    }
  }

  /** With no entry hidden, every entry is synced, in order. */
  lemma {:induction false} VisibleAll(items: seq<Json>)
    requires NoneThrow(items)
    requires forall i | 0 <= i < |items| :: Field(items[i], "is_visible") != Bool(false)
    ensures Visible(items) == items
  {
    if items != [] {
      var front := items[..|items| - 1];
      VisibleAll(front);
      assert items == front + [items[|items| - 1]];
    }
  }

  // ---------------------------------------------------------------------------
  // The listing table and the upsert

  /** The unique key of the upsert's `ON CONFLICT (source, source_id)`. */
  datatype ListingKey = ListingKey(source: string, sourceId: Json)

  function KeyOf(m: Mapped): ListingKey {
    ListingKey(m.source, m.sourceId)
  }

  datatype ListingRow = ListingRow(
    source: string,
    sourceId: Json,
    company: Json,
    title: Json,
    locations: Json,
    url: Json,
    category: Json,
    sponsorship: Json,
    active: Json,
    datePosted: Option<Stamp>,
    createdAt: int,
    updatedAt: int)

  /** Each row is stored under its own `(source, sourceId)`. */
  predicate KeysMatch(rows: map<ListingKey, ListingRow>) {
    forall k | k in rows :: rows[k].source == k.source && rows[k].sourceId == k.sourceId
  }

  function Lookup(rows: map<ListingKey, ListingRow>, k: ListingKey): (r: Option<ListingRow>)
    ensures r.Some? <==> k in rows
    ensures r.Some? ==> r.value == rows[k]
  {
    if k in rows then Some(rows[k]) else None
  }

  /** The row one upsert leaves: a new row stamped `now` twice, or the old row with the
      listed columns overwritten and `createdAt` kept. */
  function Upserted(prev: Option<ListingRow>, m: Mapped, now: int): (r: ListingRow)
    ensures r.company == m.company && r.title == m.title && r.locations == m.locations
    ensures r.url == m.url && r.category == m.category && r.sponsorship == m.sponsorship
    ensures r.active == m.active && r.datePosted == m.datePosted && r.updatedAt == now
    ensures prev.None? ==> r.source == m.source && r.sourceId == m.sourceId && r.createdAt == now
    ensures prev.Some? ==>
      r.source == prev.value.source && r.sourceId == prev.value.sourceId && r.createdAt == prev.value.createdAt
  {
    match prev
    case None =>
      ListingRow(m.source, m.sourceId, m.company, m.title, m.locations, m.url,
        m.category, m.sponsorship, m.active, m.datePosted, now, now)
    case Some(row) =>
      row.(company := m.company, title := m.title, locations := m.locations, url := m.url,
        category := m.category, sponsorship := m.sponsorship, active := m.active,
        datePosted := m.datePosted, updatedAt := now)
  }

  /** One `INSERT … ON CONFLICT DO UPDATE`. */
  function UpsertRow(rows: map<ListingKey, ListingRow>, m: Mapped, now: int): map<ListingKey, ListingRow> {
    rows[KeyOf(m) := Upserted(Lookup(rows, KeyOf(m)), m, now)]
  }

  /** The upserts run one after another. */
  function UpsertAll(rows: map<ListingKey, ListingRow>, ms: seq<Mapped>, now: int): map<ListingKey, ListingRow> {
    if ms == [] then rows else UpsertRow(UpsertAll(rows, ms[..|ms| - 1], now), ms[|ms| - 1], now)
  }

  /** The last mapped listing with key `k`, when there is one. */
  function LastWith(ms: seq<Mapped>, k: ListingKey): (r: Option<Mapped>)
    ensures r.Some? ==> r.value in ms && KeyOf(r.value) == k
    ensures r.None? <==> forall i | 0 <= i < |ms| :: KeyOf(ms[i]) != k
  {
    if ms == [] then None
    else if KeyOf(ms[|ms| - 1]) == k then Some(ms[|ms| - 1])
    else
      var r := LastWith(ms[..|ms| - 1], k);
      assert forall i | 0 <= i < |ms| - 1 :: ms[..|ms| - 1][i] == ms[i];
      r
  }

  /** A second upsert of the same key hides the first: the row is as if only the second
      had run. */
  lemma UpsertedTwice(prev: Option<ListingRow>, m1: Mapped, m2: Mapped, now: int)
    requires KeyOf(m1) == KeyOf(m2)
    ensures Upserted(Some(Upserted(prev, m1, now)), m2, now) == Upserted(prev, m2, now)
  {
  }

  lemma UpsertAllAppend(rows: map<ListingKey, ListingRow>, a: seq<Mapped>, b: seq<Mapped>, now: int)
    ensures UpsertAll(rows, a + b, now) == UpsertAll(UpsertAll(rows, a, now), b, now)
    decreases |b|
  {
    if b != [] {
      assert (a + b)[..|a + b| - 1] == a + b[..|b| - 1];
      UpsertAllAppend(rows, a, b[..|b| - 1], now);
    } else {
      assert a + b == a;
    }
  }

  /** After a run of upserts, each key holds the row of the last listing with that key
      (on top of the row it had before), and keys no listing has are untouched. */
  lemma {:induction false} UpsertAllLookup(rows: map<ListingKey, ListingRow>, ms: seq<Mapped>, now: int, k: ListingKey)
    ensures Lookup(UpsertAll(rows, ms, now), k) ==
      match LastWith(ms, k)
      case None => Lookup(rows, k)
      case Some(m) => Some(Upserted(Lookup(rows, k), m, now))
  {
    if ms != [] {
      var front := ms[..|ms| - 1];
      var last := ms[|ms| - 1];
      UpsertAllLookup(rows, front, now, k);
      if KeyOf(last) == k {
        var p := LastWith(front, k);
        if p.Some? {
          UpsertedTwice(Lookup(rows, k), p.value, last, now);
        }
      }
    }
  }

  lemma {:induction false} UpsertAllKeysMatch(rows: map<ListingKey, ListingRow>, ms: seq<Mapped>, now: int)
    requires KeysMatch(rows)
    ensures KeysMatch(UpsertAll(rows, ms, now))
  {
    if ms != [] {
      UpsertAllKeysMatch(rows, ms[..|ms| - 1], now);
    }
  }

  // ---------------------------------------------------------------------------
  // Deactivation

  /** `UPDATE … SET active = false, updatedAt = now WHERE source = 'simplify' AND
      source_id NOT IN ids`. */
  function Deactivated(rows: map<ListingKey, ListingRow>, ids: seq<Json>, now: int): (r: map<ListingKey, ListingRow>)
    ensures r.Keys == rows.Keys
  {
    map k | k in rows ::
      if rows[k].source == "simplify" && rows[k].sourceId !in ids
      then rows[k].(active := Bool(false), updatedAt := now)
      else rows[k]
  }

  /** The table after a sync of these visible listings. */
  function SyncedRows(rows: map<ListingKey, ListingRow>, listings: seq<Json>, now: int): map<ListingKey, ListingRow>
    requires NoneThrow(listings)
  {
    var ms := MapAll(listings);
    var upserted := UpsertAll(rows, ms, now);
    if |Ids(ms)| > 0 then Deactivated(upserted, Ids(ms), now) else upserted
  }

  lemma IdsMembers(ms: seq<Mapped>, x: Json)
    requires forall i | 0 <= i < |ms| :: ms[i].source == "simplify"
    ensures x in Ids(ms) <==> LastWith(ms, ListingKey("simplify", x)).Some?
  {
    var k := ListingKey("simplify", x);
    if x in Ids(ms) {
      var i :| 0 <= i < |ms| && Ids(ms)[i] == x;
      assert KeyOf(ms[i]) == k;
    }
    if LastWith(ms, k).Some? {
      var i :| 0 <= i < |ms| && KeyOf(ms[i]) == k;
      assert Ids(ms)[i] == x;
    }
  }

  /**
   * What a sync does to each row: a key in the feed holds the last listing with that
   * key, upserted over its old row; a Simplify row that is not in a non-empty feed is
   * marked inactive with every other column kept; every other row is unchanged.
   */
  lemma SyncedLookup(rows: map<ListingKey, ListingRow>, listings: seq<Json>, now: int, k: ListingKey)
    requires NoneThrow(listings) && KeysMatch(rows)
    ensures Lookup(SyncedRows(rows, listings, now), k) ==
      match LastWith(MapAll(listings), k)
      case Some(m) => Some(Upserted(Lookup(rows, k), m, now))
      case None =>
        if listings != [] && k in rows && k.source == "simplify"
        then Some(rows[k].(active := Bool(false), updatedAt := now))
        else Lookup(rows, k)
  {
    var ms := MapAll(listings);
    UpsertAllLookup(rows, ms, now, k);
    UpsertAllKeysMatch(rows, ms, now);
    var upserted := UpsertAll(rows, ms, now);
    if listings != [] && k in upserted {
      IdsMembers(ms, k.sourceId);
      assert upserted[k].source == k.source && upserted[k].sourceId == k.sourceId;
    }
  }

  /** An empty feed writes nothing. */
  lemma SyncedEmpty(rows: map<ListingKey, ListingRow>, now: int)
    ensures SyncedRows(rows, [], now) == rows
  {
    assert MapAll([]) == [];
  }

  /** The sync keeps every row under its own key and drops none. */
  lemma SyncedKeys(rows: map<ListingKey, ListingRow>, listings: seq<Json>, now: int)
    requires NoneThrow(listings) && KeysMatch(rows)
    ensures KeysMatch(SyncedRows(rows, listings, now))
    ensures rows.Keys <= SyncedRows(rows, listings, now).Keys
    ensures forall i | 0 <= i < |listings| :: KeyOf(MapListing(listings[i])) in SyncedRows(rows, listings, now)
  {
    var ms := MapAll(listings);
    UpsertAllKeysMatch(rows, ms, now);
    forall k | k in rows ensures k in SyncedRows(rows, listings, now) {
      SyncedLookup(rows, listings, now, k);
    }
    forall i | 0 <= i < |listings| ensures KeyOf(MapListing(listings[i])) in SyncedRows(rows, listings, now) {
      var k := KeyOf(MapListing(listings[i]));
      assert KeyOf(ms[i]) == k;
      SyncedLookup(rows, listings, now, k);
    }
  }

  // ---------------------------------------------------------------------------
  // syncSimplifyJobs

  /** What `fetch` and `response.json()` gave: a non-2xx status, a thrown error (network
      or invalid JSON), or the parsed body. */
  datatype Fetched = NotOk(status: int) | Threw(message: string) | Body(value: Json)

  /** The resolved `{ synced, error? }`, or a rejected promise (the `TypeError` of the
      visible filter). */
  datatype Outcome = Outcome(synced: nat, error: Option<string>) | Rejected

  /** `BATCH_SIZE`, within D1's limit of 100 statements per batch. */
  const BatchSize: nat := 50
  const D1BatchLimit: nat := 100

  /** How many listings the loop has handled once `i` has reached this value. */
  function Done(i: int, n: nat): nat {
    if i < 0 then 0 else if i < n then i else n
  }

  /** In terms of the whole feed, the batch `listings[i..end]` continues what the
      earlier batches did. */
  lemma BatchSlices(listings: seq<Json>, i: nat, end: nat)
    requires NoneThrow(listings) && i <= end <= |listings|
    ensures MapAll(listings[i..end]) == MapAll(listings)[i..end]
    ensures MapAll(listings)[..i] + MapAll(listings)[i..end] == MapAll(listings)[..end]
    ensures Ids(MapAll(listings)[..i]) + Ids(MapAll(listings)[i..end]) == Ids(MapAll(listings)[..end])
  {
    var ms := MapAll(listings);
    MapAllSlice(listings, i, end);
    assert ms[..i] + ms[i..end] == ms[..end];
    IdsAppend(ms[..i], ms[i..end]);
  }

  lemma MapAllSlice(listings: seq<Json>, i: nat, end: nat)
    requires NoneThrow(listings) && i <= end <= |listings|
    ensures MapAll(listings[i..end]) == MapAll(listings)[i..end]
  {
  }

  /** Pushing the id of one more mapped entry. */
  lemma IdsPush(ids0: seq<Json>, ms: seq<Mapped>, m: Mapped)
    ensures ids0 + Ids(ms + [m]) == (ids0 + Ids(ms)) + [m.sourceId]
  {
    assert (ms + [m])[..|ms|] == ms;
    assert Ids(ms + [m]) == Ids(ms) + [m.sourceId];
  }

  lemma IdsAppend(a: seq<Mapped>, b: seq<Mapped>)
    ensures Ids(a + b) == Ids(a) + Ids(b)
  {
  }

  class ListingTable {
    var rows: map<ListingKey, ListingRow>

    /** One `db.batch` of upserts, run in order. */
    method ExecBatch(statements: seq<Mapped>, now: int)
      requires 0 < |statements| <= D1BatchLimit
      modifies this
      ensures rows == UpsertAll(old(rows), statements, now)
    {
      ghost var rows0 := rows;
      var j := 0;
      while j < |statements|
        invariant 0 <= j <= |statements|
        invariant rows == UpsertAll(rows0, statements[..j], now)
      {
        assert statements[..j + 1][..j] == statements[..j];
        rows := UpsertRow(rows, statements[j], now);
        j := j + 1;
      }
      assert statements[..j] == statements;
    }

    /** The deactivation update. */
    method MarkMissingInactive(sourceIds: seq<Json>, now: int)
      modifies this
      ensures rows == Deactivated(old(rows), sourceIds, now)
    {
      rows := Deactivated(rows, sourceIds, now);
    }

    /** `batch.map(…)`: one upsert statement per entry, each entry's id pushed onto
        `sourceIds` as it is mapped. */
    method MapBatch(batch: seq<Json>, ids0: seq<Json>) returns (statements: seq<Mapped>, sourceIds: seq<Json>)
      requires NoneThrow(batch)
      ensures statements == MapAll(batch)
      ensures sourceIds == ids0 + Ids(MapAll(batch))
    {
      ghost var ms := MapAll(batch);
      statements := [];
      sourceIds := ids0;
      var j := 0;
      while j < |batch|
        invariant 0 <= j <= |batch|
        invariant statements == ms[..j]
        invariant sourceIds == ids0 + Ids(statements)
      {
        var mapped := MapListing(batch[j]);
        PrefixSnoc(ms, j + 1);
        IdsPush(ids0, statements, mapped);
        sourceIds := sourceIds + [mapped.sourceId];
        statements := statements + [mapped];
        j := j + 1;
      }
      assert ms[..j] == ms;
    }

    /** One chunk of the upsert loop: map `listings[i..end]`, run the upserts as one
        batch when there is at least one, and extend `sourceIds`. Before and after, the
        table and `sourceIds` are what the listings so far have made of them. */
    method UpsertBatch(listings: seq<Json>, i: nat, end: nat, ids0: seq<Json>, now: int,
                       ghost rows0: map<ListingKey, ListingRow>)
      returns (count: nat, sourceIds: seq<Json>)
      requires NoneThrow(listings) && i <= end <= |listings| && end - i <= BatchSize
      requires ids0 == Ids(MapAll(listings)[..i])
      requires rows == UpsertAll(rows0, MapAll(listings)[..i], now)
      modifies this
      ensures count == end - i
      ensures sourceIds == Ids(MapAll(listings)[..end])
      ensures rows == UpsertAll(rows0, MapAll(listings)[..end], now)
    {
      ghost var ms := MapAll(listings);
      var batch := listings[i..end];
      var statements;
      statements, sourceIds := MapBatch(batch, ids0);
      BatchSlices(listings, i, end);
      count := 0;
      if |statements| > 0 {
        ExecBatch(statements, now);
        count := |statements|;
      }
      UpsertAllAppend(rows0, ms[..i], ms[i..end], now);
    }

    /** The chunked upsert loop over the visible listings; returns `synced` and
        `sourceIds`. */
    method UpsertInBatches(listings: seq<Json>, now: int) returns (synced: nat, sourceIds: seq<Json>)
      requires NoneThrow(listings)
      modifies this
      ensures synced == |listings|
      ensures sourceIds == Ids(MapAll(listings))
      ensures rows == UpsertAll(old(rows), MapAll(listings), now)
    {
      ghost var rows0 := rows;
      var n := |listings|;
      sourceIds := [];
      synced := 0;
      var i := 0;
      while i < n
        invariant 0 <= i
        invariant synced == Done(i, n)
        invariant sourceIds == Ids(MapAll(listings)[..Done(i, n)])
        invariant rows == UpsertAll(rows0, MapAll(listings)[..Done(i, n)], now)
        decreases n - i
      {
        var end := if i + BatchSize < n then i + BatchSize else n;
        assert Done(i, n) == i && Done(i + BatchSize, n) == end;
        var count;
        count, sourceIds := UpsertBatch(listings, i, end, sourceIds, now, rows0);
        synced := synced + count;
        i := i + BatchSize;
      }
      assert MapAll(listings)[..n] == MapAll(listings);
    }

    /** `syncSimplifyJobs`, with the fetch as an input. */
    method Sync(fetched: Fetched, now: int) returns (outcome: Outcome)
      modifies this
      ensures fetched.NotOk? ==>
        outcome == Outcome(0, Some("Fetch failed: " + IntToString(fetched.status))) && rows == old(rows)
      ensures fetched.Threw? ==>
        outcome == Outcome(0, Some("Fetch error: " + fetched.message)) && rows == old(rows)
      ensures fetched.Body? && !Validate(fetched.value) ==>
        outcome == Outcome(0, Some("Validation failed: unexpected JSON shape")) && rows == old(rows)
      ensures fetched.Body? && Validate(fetched.value) && !NoneThrow(fetched.value.items) ==>
        outcome == Rejected && rows == old(rows)
      ensures fetched.Body? && Validate(fetched.value) && NoneThrow(fetched.value.items) ==>
        outcome == Outcome(|Visible(fetched.value.items)|, None)
        && rows == SyncedRows(old(rows), Visible(fetched.value.items), now)
    {
      match fetched
      case NotOk(status) =>
        outcome := Outcome(0, Some("Fetch failed: " + IntToString(status)));
      case Threw(message) =>
        outcome := Outcome(0, Some("Fetch error: " + message));
      case Body(raw) =>
        if !Validate(raw) {
          outcome := Outcome(0, Some("Validation failed: unexpected JSON shape"));
          return;
        }
        if !NoneThrow(raw.items) {
          outcome := Rejected;
          return;
        }
        var listings := Visible(raw.items);
        var synced, sourceIds := UpsertInBatches(listings, now);
        if |sourceIds| > 0 {
          MarkMissingInactive(sourceIds, now);
        }
        outcome := Outcome(synced, None);
    }
  }
}
