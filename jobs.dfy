/**
 * The job board page: parsing of the `page` parameter, the LIMIT/OFFSET window of
 * 25 listings, the page count and the "Showing a – b of n" range, the "time ago"
 * buckets, the links to other pages and the decoding of the stored locations.
 */
module Jobs {
  import opened Wrappers
  import opened JsText
  import opened JsonValue

  /** `PAGE_SIZE`. */
  const PageSize: nat := 25

  // ---------------------------------------------------------------------------
  // The page parameter

  /** `Math.max(1, parseInt(url.searchParams.get("page") || "1") || 1)`: an absent or
      empty parameter reads as "1", NaN and 0 fall back to 1, and anything below 1 is
      raised to 1. */
  function ParsePage(param: Option<string>): (page: int)
    ensures page >= 1
  {
    var text := if param.None? || param.value == [] then "1" else param.value;
    var parsed := ParseInt(text);
    var v := if parsed.None? || parsed.value == 0 then 1 else parsed.value;
    if v < 1 then 1 else v
  }

  /** A parameter that `parseInt` reads as a positive number is that page; every other
      parameter is page 1. */
  lemma ParsePageMeaning(param: Option<string>)
    ensures param.Some? && param.value != [] && ParseInt(param.value).Some? && ParseInt(param.value).value >= 1
      ==> ParsePage(param) == ParseInt(param.value).value
    ensures param.None? || param.value == [] || ParseInt(param.value).None? || ParseInt(param.value).value < 1
      ==> ParsePage(param) == 1
  {
    if param.None? || param.value == [] {
      assert ParseInt("1") == Some(1) by {
        ParseIntOfDigits("1");
        assert RunValue("1", 10) == 1 by {
          assert "1"[..0] == [];
        }
      }
    }
  }

  /** `String(n)` read back as the page parameter gives `n` for every `n >= 1`. */
  lemma ParsePageOfString(n: int)
    requires n >= 1
    ensures ParsePage(Some(IntToString(n))) == n
  {
    ParseIntToString(n);
    assert IntToString(n) == NatToString(n);
  }

  // ---------------------------------------------------------------------------
  // The LIMIT/OFFSET window

  /** `.offset((page - 1) * PAGE_SIZE)`. */
  function Offset(page: int): (o: nat)
    requires page >= 1
    ensures o % PageSize == 0 && o / PageSize == page - 1
  {
    (page - 1) * PageSize
  }

  function Min(a: int, b: int): int {
    if a < b then a else b
  }

  /** `.limit(PAGE_SIZE).offset(Offset(page))` on the ordered result `rows`: an offset
      past the end gives no rows. */
  function PageSlice<T>(rows: seq<T>, page: int): (r: seq<T>)
    requires page >= 1
    ensures |r| <= PageSize
  {
    rows[Min(Offset(page), |rows|)..Min(Offset(page) + PageSize, |rows|)]
  }

  /** `Math.max(1, Math.ceil(total / pageSize))`: the fewest pages, and at least one,
      that hold `total` rows. */
  function TotalPages(total: nat, pageSize: nat): (n: nat)
    requires pageSize > 0
    ensures n >= 1 && n * pageSize >= total
    ensures n == 1 || (n - 1) * pageSize < total
  {
    var c := (total + pageSize - 1) / pageSize;
    if c < 1 then 1 else c
  }

  /** `hasNextPage`. */
  predicate HasNextPage(page: int, totalPages: int) {
    page < totalPages
  }

  /** `hasPrevPage`. */
  predicate HasPrevPage(page: int) {
    page > 1
  }

  /** Each row is on page `i / 25 + 1`, as its `i % 25`-th entry, and that page exists. */
  lemma RowOnItsPage<T>(rows: seq<T>, i: nat)
    requires i < |rows|
    ensures 1 <= i / PageSize + 1 <= TotalPages(|rows|, PageSize)
    ensures i % PageSize < |PageSlice(rows, i / PageSize + 1)|
    ensures PageSlice(rows, i / PageSize + 1)[i % PageSize] == rows[i]
  {
    var p := i / PageSize + 1;
    assert Offset(p) == i - i % PageSize;
    assert (p - 1) * PageSize <= i;
  }

  /** Pages past the last one are empty, and so are all pages of an empty result. */
  lemma PastLastPageEmpty<T>(rows: seq<T>, page: int)
    requires page > TotalPages(|rows|, PageSize)
    ensures PageSlice(rows, page) == []
  {
    var t := TotalPages(|rows|, PageSize);
    assert (page - 1) * PageSize >= t * PageSize;
  }

  /** The "next" link is shown exactly when the next page has rows. */
  lemma HasNextPageMeaning<T>(rows: seq<T>, page: int)
    requires page >= 1
    ensures HasNextPage(page, TotalPages(|rows|, PageSize)) <==> PageSlice(rows, page + 1) != []
  {
    var t := TotalPages(|rows|, PageSize);
    if page < t {
      assert page * PageSize <= (t - 1) * PageSize < |rows|;
    } else {
      PastLastPageEmpty(rows, page + 1);
    }
  }

  // ---------------------------------------------------------------------------
  // "Showing a – b of n results"

  /** The first and last row numbers of the summary. */
  function ShownRange(page: int, pageSize: nat, total: nat): (int, int) {
    ((page - 1) * pageSize + 1, Min(page * pageSize, total))
  }

  /** On an existing page of a non-empty result the range is `Offset + 1` to
      `Offset + |page|`: exactly the rows the page shows, and never past `total`. */
  lemma ShownRangeMatchesPage<T>(rows: seq<T>, page: int)
    requires |rows| > 0 && 1 <= page <= TotalPages(|rows|, PageSize)
    ensures ShownRange(page, PageSize, |rows|).0 == Offset(page) + 1
    ensures ShownRange(page, PageSize, |rows|).1 == Offset(page) + |PageSlice(rows, page)|
    ensures ShownRange(page, PageSize, |rows|).0 <= ShownRange(page, PageSize, |rows|).1 <= |rows|
  {
    var t := TotalPages(|rows|, PageSize);
    assert (page - 1) * PageSize <= (t - 1) * PageSize;
    if t > 1 {
      assert (t - 1) * PageSize < |rows|;
    }
  }

  /** The end of the range never passes `total`, whatever the page. */
  lemma ShownRangeEndBounded(page: int, pageSize: nat, total: nat)
    requires page >= 1
    ensures ShownRange(page, pageSize, total).1 <= total
    ensures page * pageSize <= total ==> ShownRange(page, pageSize, total).1 == page * pageSize
  {
  }

  /** A page number past the last page, which the parameter allows, gives a backwards
      range: page 3 of 10 results reads "Showing 51 – 10 of 10". */
  lemma ShownRangePastLastPage()
    ensures TotalPages(10, PageSize) == 1
    ensures ShownRange(3, PageSize, 10) == (51, 10)
  {
  }

  // ---------------------------------------------------------------------------
  // formatTimeAgo

  const MinuteMs: int := 60_000
  const HourMs: int := 3_600_000
  const DayMs: int := 86_400_000

  /**
   * `formatTimeAgo(timestamp)` at the instant `nowMs`: the whole minutes, hours and days
   * (rounded down) since `timestamp` seconds, in the first bucket that fits, and the
   * date formatter's text after 30 days.
   */
  function FormatTimeAgo(timestamp: int, nowMs: int, formatDate: int -> string): string {
    var diffMs := nowMs - timestamp * 1000;
    var diffMinutes := diffMs / MinuteMs;
    var diffHours := diffMs / HourMs;
    var diffDays := diffMs / DayMs;
    if diffMinutes < 1 then "just now"
    else if diffMinutes < 60 then IntToString(diffMinutes) + "m ago"
    else if diffHours < 24 then IntToString(diffHours) + "h ago"
    else if diffDays < 30 then IntToString(diffDays) + "d ago"
    else formatDate(timestamp * 1000)
  }

  /** `n` whole units of `unit` milliseconds have passed, rounded down. */
  predicate Elapsed(diffMs: int, unit: int, n: int) {
    n * unit <= diffMs < (n + 1) * unit
  }

  /** The buckets by elapsed time, with the number shown counting whole units: under a
      minute (including a time in the future) is "just now", then 1–59 minutes, 1–23
      hours and 1–29 days, and from 30 days on the formatted date. */
  lemma FormatTimeAgoBuckets(timestamp: int, nowMs: int, formatDate: int -> string)
    ensures var d := nowMs - timestamp * 1000;
      && (d < MinuteMs ==> FormatTimeAgo(timestamp, nowMs, formatDate) == "just now")
      && (MinuteMs <= d < HourMs ==> exists n | 1 <= n < 60 && Elapsed(d, MinuteMs, n) ::
            FormatTimeAgo(timestamp, nowMs, formatDate) == IntToString(n) + "m ago")
      && (HourMs <= d < DayMs ==> exists n | 1 <= n < 24 && Elapsed(d, HourMs, n) ::
            FormatTimeAgo(timestamp, nowMs, formatDate) == IntToString(n) + "h ago")
      && (DayMs <= d < 30 * DayMs ==> exists n | 1 <= n < 30 && Elapsed(d, DayMs, n) ::
            FormatTimeAgo(timestamp, nowMs, formatDate) == IntToString(n) + "d ago")
      && (30 * DayMs <= d ==> FormatTimeAgo(timestamp, nowMs, formatDate) == formatDate(timestamp * 1000))
  {
    var d := nowMs - timestamp * 1000;
    var r := FormatTimeAgo(timestamp, nowMs, formatDate);
    FloorDiv(d, MinuteMs);
    FloorDiv(d, HourMs);
    FloorDiv(d, DayMs);
    if MinuteMs <= d < HourMs {
      assert r == IntToString(d / MinuteMs) + "m ago";
    } else if HourMs <= d < DayMs {
      assert r == IntToString(d / HourMs) + "h ago";
    } else if DayMs <= d < 30 * DayMs {
      assert r == IntToString(d / DayMs) + "d ago";
    }
  }

  /** `Math.floor(d / unit)` is Dafny's `d / unit` for a positive unit. */
  lemma FloorDiv(d: int, unit: int)
    requires unit > 0
    ensures Elapsed(d, unit, d / unit)
  {
  }

  // ---------------------------------------------------------------------------
  // buildPageUrl

  /** One name–value pair of a query string. */
  datatype Param = Param(name: string, value: string)

  /** `params.delete(name)`: every pair with that name goes. */
  function Deleted(ps: seq<Param>, name: string): (r: seq<Param>)
    ensures forall i | 0 <= i < |r| :: r[i].name != name
    ensures forall p :: p in r <==> p in ps && p.name != name
  {
    if ps == [] then []
    else (if ps[0].name == name then [] else [ps[0]]) + Deleted(ps[1..], name)
  }

  /** `params.set(name, value)`: the first pair with that name takes the value and the
      later ones go; with no such pair, one is appended. */
  function SetParam(ps: seq<Param>, name: string, value: string): seq<Param> {
    if ps == [] then [Param(name, value)]
    else if ps[0].name == name then [Param(name, value)] + Deleted(ps[1..], name)
    else [ps[0]] + SetParam(ps[1..], name, value)
  }

  /** `params.get(name)`: the value of the first pair with that name. */
  function GetParam(ps: seq<Param>, name: string): Option<string> {
    if ps == [] then None
    else if ps[0].name == name then Some(ps[0].value)
    else GetParam(ps[1..], name)
  }

  lemma {:induction false} SetParamEffect(ps: seq<Param>, name: string, value: string)
    ensures GetParam(SetParam(ps, name, value), name) == Some(value)
    ensures Deleted(SetParam(ps, name, value), name) == Deleted(ps, name)
    ensures |Deleted(SetParam(ps, name, value), name)| == |SetParam(ps, name, value)| - 1
  {
    if ps != [] && ps[0].name != name {
      SetParamEffect(ps[1..], name, value);
    } else if ps != [] {
      DeletedTwice(ps[1..], name);
    }
  }

  lemma {:induction false} DeletedTwice(ps: seq<Param>, name: string)
    ensures Deleted(Deleted(ps, name), name) == Deleted(ps, name)
  {
    if ps != [] {
      var rest := Deleted(ps[1..], name);
      DeletedTwice(ps[1..], name);
      if ps[0].name == name {
        assert Deleted(ps, name) == rest;
      } else {
        assert Deleted(ps, name) == [ps[0]] + rest;
        DeletedCons(ps[0], rest, name);
      }
    }
  }

  lemma DeletedCons(p: Param, ps: seq<Param>, name: string)
    ensures Deleted([p] + ps, name) == (if p.name == name then [] else [p]) + Deleted(ps, name)
  {
    assert ([p] + ps)[1..] == ps;
  }

  lemma DeletedNone(ps: seq<Param>, name: string)
    ensures GetParam(Deleted(ps, name), name) == None
  {
    GetNoneIfAbsent(Deleted(ps, name), name);
  }

  lemma {:induction false} GetNoneIfAbsent(ps: seq<Param>, name: string)
    requires forall i | 0 <= i < |ps| :: ps[i].name != name
    ensures GetParam(ps, name) == None
  {
    if ps != [] {
      GetNoneIfAbsent(ps[1..], name);
    }
  }

  /** `URLSearchParams` as an object the page code copies and changes in place. */
  class SearchParams {
    var pairs: seq<Param>

    /** `new URLSearchParams(searchParams)`: a copy. */
    constructor (init: seq<Param>)
      ensures pairs == init
    {
      pairs := init;
    }

    method Delete(name: string)
      modifies this
      ensures pairs == Deleted(old(pairs), name)
    {
      pairs := Deleted(pairs, name);
    }

    method Set(name: string, value: string)
      modifies this
      ensures pairs == SetParam(old(pairs), name, value)
    {
      pairs := SetParam(pairs, name, value);
    }
  }

  /** The pairs of the link to `page`. */
  function PagePairs(search: seq<Param>, page: int): seq<Param> {
    if page <= 1 then Deleted(search, "page") else SetParam(search, "page", IntToString(page))
  }

  /** `qs ? "/jobs?" + qs : "/jobs"`, where `qs` is `params.toString()`; the
      form-encoding of each pair is the `encode` parameter, and a pair always
      contributes its `=`. */
  function PageUrl(search: seq<Param>, page: int, encode: string -> string): string {
    var qs := Serialize(PagePairs(search, page), encode);
    if qs == [] then "/jobs" else "/jobs?" + qs
  }

  function EncodePair(p: Param, encode: string -> string): (r: string)
    ensures r != []
  {
    encode(p.name) + "=" + encode(p.value)
  }

  /** `toString()`: the encoded pairs joined by `&`. */
  function Serialize(ps: seq<Param>, encode: string -> string): (qs: string)
    ensures qs == [] <==> ps == []
  {
    if ps == [] then []
    else if |ps| == 1 then EncodePair(ps[0], encode)
    else EncodePair(ps[0], encode) + "&" + Serialize(ps[1..], encode)
  }

  /** `buildPageUrl(searchParams, page)`. */
  method BuildPageUrl(search: seq<Param>, page: int, encode: string -> string) returns (url: string)
    ensures url == PageUrl(search, page, encode)
  {
    var params := new SearchParams(search);
    if page <= 1 {
      params.Delete("page");
    } else {
      params.Set("page", IntToString(page));
    }
    var qs := Serialize(params.pairs, encode);
    url := if qs != [] then "/jobs?" + qs else "/jobs";
  }

  /** Following the link to `page` lands on `page` (on page 1 for `page <= 1`), and every
      other parameter is kept, in order. */
  lemma PageUrlRoundTrip(search: seq<Param>, page: int)
    ensures ParsePage(GetParam(PagePairs(search, page), "page")) == if page <= 1 then 1 else page
    ensures Deleted(PagePairs(search, page), "page") == Deleted(search, "page")
  {
    if page <= 1 {
      DeletedNone(search, "page");
      DeletedTwice(search, "page");
      ParsePageMeaning(None);
    } else {
      SetParamEffect(search, "page", IntToString(page));
      ParsePageOfString(page);
    }
  }

  /** The link is the bare "/jobs" exactly when no parameter is left. */
  lemma PageUrlBare(search: seq<Param>, page: int, encode: string -> string)
    ensures PageUrl(search, page, encode) == "/jobs" <==> PagePairs(search, page) == []
  {
    var qs := Serialize(PagePairs(search, page), encode);
    if qs != [] {
      assert |"/jobs?" + qs| > |"/jobs"|;
    }
  }

  // ---------------------------------------------------------------------------
  // parseLocations

  /** `parseLocations(locationsJson)`; `parse` is `JSON.parse`, `None` when it throws. */
  function ParseLocations(locationsJson: string, parse: string -> Option<Json>): (r: seq<Json>)
    ensures parse(locationsJson).None? ==> r == [Str(locationsJson)]
    ensures parse(locationsJson).Some? && parse(locationsJson).value.Arr? ==> r == parse(locationsJson).value.items
  {
    match parse(locationsJson)
    case None => [Str(locationsJson)]
    case Some(v) => if v.Arr? then v.items else [Str(ToJsString(v))]
  }

  /** The result is empty only for text that parses to an empty array; a parsed value
      that is not an array becomes its one `String(v)`: a parsed string comes back as
      itself, a number as its decimal text, and `null`, a boolean or an object as
      `"null"`, `"true"`/`"false"` or `"[object Object]"`. */
  lemma ParseLocationsShape(locationsJson: string, parse: string -> Option<Json>)
    ensures ParseLocations(locationsJson, parse) == [] <==> parse(locationsJson) == Some(Arr([]))
    ensures parse(locationsJson).Some? && parse(locationsJson).value.Str?
      ==> ParseLocations(locationsJson, parse) == [parse(locationsJson).value]
    ensures parse(locationsJson).Some? && parse(locationsJson).value.Num?
      ==> ParseLocations(locationsJson, parse) == [Str(IntToString(parse(locationsJson).value.n))]
    ensures parse(locationsJson) == Some(Null) ==> ParseLocations(locationsJson, parse) == [Str("null")]
    ensures parse(locationsJson).Some? && parse(locationsJson).value.Bool?
      ==> ParseLocations(locationsJson, parse) == [Str(if parse(locationsJson).value.b then "true" else "false")]
    ensures parse(locationsJson).Some? && parse(locationsJson).value.Obj?
      ==> ParseLocations(locationsJson, parse) == [Str("[object Object]")]
  {
  }
}
