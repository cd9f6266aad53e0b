/**
 * The board loader: a user with no column gets the four default columns, then the
 * user's columns come back in position order, each with the user's applications in
 * that column in position order. Also the color names and their hex values.
 */
module Dashboard {
  import opened Wrappers
  import opened Ordering
  import opened Schema
  import opened Store

  /** One entry of `DEFAULT_COLUMNS`. */
  datatype ColumnTemplate = ColumnTemplate(name: string, color: string)

  const DefaultColumns: seq<ColumnTemplate> := [
    ColumnTemplate("Bookmarked", "indigo"),
    ColumnTemplate("Applied", "blue"),
    ColumnTemplate("Interview", "amber"),
    ColumnTemplate("Offer", "green")
  ]

  // ---------------------------------------------------------------------------
  // Seeding

  /** The rows of the seeding inserts: template i at position i, stamped `now`. */
  function SeedRows(userId: Id, now: int, ids: seq<Id>): (rows: seq<ColumnRow>)
    requires |ids| == |DefaultColumns|
    ensures |rows| == |DefaultColumns|
    ensures forall i | 0 <= i < |rows| ::
      rows[i] == ColumnRow(ids[i], userId, DefaultColumns[i].name, DefaultColumns[i].color, i, now, now)
  {
    seq(|DefaultColumns|, i requires 0 <= i < |DefaultColumns| =>
      ColumnRow(ids[i], userId, DefaultColumns[i].name, DefaultColumns[i].color, i, now, now))
  }

  /** `db.insert(boardColumn).values(row)` for each row, in order. */
  function InsertColumns(rows: seq<ColumnRow>): (ss: seq<Stmt>)
    ensures |ss| == |rows|
    ensures forall i | 0 <= i < |rows| :: ss[i] == InsertColumn(rows[i])
  {
    seq(|rows|, i requires 0 <= i < |rows| => InsertColumn(rows[i]))
  }

  /** The fresh ids the seeding inserts may use: four new keys, all different. */
  predicate FreshSeedIds(t: Tables, ids: seq<Id>) {
    |ids| == |DefaultColumns| && Distinct(ids) && forall i | 0 <= i < |ids| :: ids[i] !in t.columns
  }

  /** The database after the seeding step of the loader: the defaults are inserted only
      for a user who has no column. */
  function Seeded(t: Tables, userId: Id, now: int, ids: seq<Id>): Tables
    requires |ids| == |DefaultColumns|
  {
    if UserColumnCount(t, userId) == 0 then Run(t, InsertColumns(SeedRows(userId, now, ids))) else t
  }

  /** One seeding insert: the k-th new id, still absent, receives its row. */
  lemma SeedInsertStep(t: Tables, t1: Tables, ids: seq<Id>, rows: seq<ColumnRow>, k: nat)
    requires |rows| == |ids| && 0 < k <= |ids| && Distinct(ids)
    requires rows[k - 1].id == ids[k - 1]
    requires WellFormed(t1) && t1 == t.(columns := t1.columns, colOrder := t1.colOrder)
    requires forall i | k - 1 <= i < |ids| :: ids[i] !in t1.columns
    requires forall i | 0 <= i < k - 1 :: ids[i] in t1.columns && t1.columns[ids[i]] == rows[i]
    requires forall c | c in t.columns :: c in t1.columns && t1.columns[c] == t.columns[c]
    ensures var t2 := Apply(t1, InsertColumn(rows[k - 1]));
      && WellFormed(t2)
      && t2 == t.(columns := t2.columns, colOrder := t2.colOrder)
      && (forall i | k <= i < |ids| :: ids[i] !in t2.columns)
      && (forall i | 0 <= i < k :: ids[i] in t2.columns && t2.columns[ids[i]] == rows[i])
      && (forall c | c in t.columns :: c in t2.columns && t2.columns[c] == t.columns[c])
  {
    ApplyWellFormed(t1, InsertColumn(rows[k - 1]));
  }

  /** After the first k seeding inserts the first k new ids hold the first k templates
      and the other tables and rows are as they were. */
  lemma {:induction false} SeedRowsPrefix(t: Tables, userId: Id, now: int, ids: seq<Id>, k: nat)
    requires WellFormed(t) && FreshSeedIds(t, ids)
    requires k <= |DefaultColumns|
    ensures var t' := Run(t, InsertColumns(SeedRows(userId, now, ids))[..k]);
      && WellFormed(t')
      && t' == t.(columns := t'.columns, colOrder := t'.colOrder)
      && (forall i | k <= i < |ids| :: ids[i] !in t'.columns)
      && (forall i | 0 <= i < k :: ids[i] in t'.columns && t'.columns[ids[i]] == SeedRows(userId, now, ids)[i])
      && (forall c | c in t.columns :: c in t'.columns && t'.columns[c] == t.columns[c])
  {
    var ss := InsertColumns(SeedRows(userId, now, ids));
    if k == 0 {
      assert ss[..0] == [];
    } else {
      SeedRowsPrefix(t, userId, now, ids, k - 1);
      var t1 := Run(t, ss[..k - 1]);
      RunPrefix(t, ss, k);
      SeedInsertStep(t, t1, ids, SeedRows(userId, now, ids), k);
    }
  }

  /** After the first k seeding inserts the user's columns are the first k new ids in
      order, numbered 0 .. k - 1; other users' columns read as before. */
  lemma {:induction false} SeedPrefix(t: Tables, userId: Id, now: int, ids: seq<Id>, k: nat)
    requires WellFormed(t) && UserColumnCount(t, userId) == 0 && FreshSeedIds(t, ids)
    requires k <= |DefaultColumns|
    ensures var t' := Run(t, InsertColumns(SeedRows(userId, now, ids))[..k]);
      && UserColumns(t', userId) == ids[..k]
      && UserColumnsDense(t', userId)
      && (forall u | u != userId :: UserColumns(t', u) == UserColumns(t, u))
  {
    var ss := InsertColumns(SeedRows(userId, now, ids));
    if k == 0 {
      assert ss[..0] == [];
      UserColumnsMembers(t, userId);
      assert UserColumnIds(t, userId) == [];
    } else {
      SeedPrefix(t, userId, now, ids, k - 1);
      SeedRowsPrefix(t, userId, now, ids, k - 1);
      var t1 := Run(t, ss[..k - 1]);
      var row := SeedRows(userId, now, ids)[k - 1];
      RunPrefix(t, ss, k);
      assert |UserColumnIds(t1, userId)| == |ids[..k - 1]|;
      InsertColumnAtEnd(t1, row);
      PrefixSnoc(ids, k);
      forall u | u != userId ensures UserColumns(Apply(t1, InsertColumn(row)), u) == UserColumns(t, u) {
        InsertColumnOtherUser(t1, row, u);
      }
    }
  }

  /** A user with no column ends with exactly the four defaults, in template order at
      positions 0 .. 3; other users' columns and all other tables are untouched. */
  lemma SeedEffect(t: Tables, userId: Id, now: int, ids: seq<Id>)
    requires WellFormed(t) && UserColumnCount(t, userId) == 0 && FreshSeedIds(t, ids)
    ensures var t' := Seeded(t, userId, now, ids);
      && WellFormed(t')
      && t' == t.(columns := t'.columns, colOrder := t'.colOrder)
      && UserColumns(t', userId) == ids
      && UserColumnsDense(t', userId)
      && (forall i | 0 <= i < |ids| :: ids[i] in t'.columns
            && t'.columns[ids[i]].name == DefaultColumns[i].name
            && t'.columns[ids[i]].color == DefaultColumns[i].color
            && t'.columns[ids[i]].position == i
            && t'.columns[ids[i]].userId == userId)
      && (forall c | c in t.columns :: c in t'.columns && t'.columns[c] == t.columns[c])
      && (forall u | u != userId :: UserColumns(t', u) == UserColumns(t, u))
  {
    var ss := InsertColumns(SeedRows(userId, now, ids));
    SeedRowsPrefix(t, userId, now, ids, |DefaultColumns|);
    SeedPrefix(t, userId, now, ids, |DefaultColumns|);
    assert ss[..|DefaultColumns|] == ss;
    assert ids[..|DefaultColumns|] == ids;
    assert Seeded(t, userId, now, ids) == Run(t, ss);
  }

  // ---------------------------------------------------------------------------
  // The board the loader returns

  /** `WHERE application.user_id = u`. */
  function AppOwnedBy(apps: map<Id, AppRow>, u: Id): Id -> bool {
    id => id in apps && apps[id].userId == u
  }

  /** `WHERE application.user_id = u AND application.column_id = c`. */
  function AppOwnedIn(apps: map<Id, AppRow>, u: Id, c: Id): Id -> bool {
    id => id in apps && apps[id].userId == u && apps[id].columnId == c
  }

  /** The rows under a list of keys. */
  function AppRows(apps: map<Id, AppRow>, ids: seq<Id>): (rows: seq<AppRow>)
    requires forall id | id in ids :: id in apps
    ensures |rows| == |ids|
    ensures forall i | 0 <= i < |ids| :: rows[i] == apps[ids[i]]
  {
    seq(|ids|, i requires 0 <= i < |ids| => apps[ids[i]])
  }

  /** `SELECT id FROM application WHERE user_id = u ORDER BY position`. */
  function UserAppOrder(t: Tables, u: Id): seq<Id> {
    SortBy(Filter(t.appOrder, AppOwnedBy(t.apps, u)), AppPosition(t.apps))
  }

  /** The user's applications whose `columnId` is `c`, in ascending position. */
  function ColumnAppOrder(t: Tables, u: Id, c: Id): seq<Id> {
    SortBy(Filter(t.appOrder, AppOwnedIn(t.apps, u, c)), AppPosition(t.apps))
  }

  /** A column of the board with its applications. */
  datatype BoardColumn = BoardColumn(column: ColumnRow, applications: seq<AppRow>)

  /** The keys a query over the application table returns are all in the table. */
  lemma AppQueryMembers(t: Tables, p: Id -> bool)
    requires WellFormed(t)
    requires forall id | p(id) :: id in t.apps
    ensures var o := SortBy(Filter(t.appOrder, p), AppPosition(t.apps));
      && Distinct(o)
      && (forall id :: id in o <==> p(id))
  {
    FilterMembers(t.appOrder, p);
    FilterDistinct(t.appOrder, p);
    SortByMembers(Filter(t.appOrder, p), AppPosition(t.apps));
    SortByDistinct(Filter(t.appOrder, p), AppPosition(t.apps));
  }

  /** One column of the board: the row and the user's applications in it in position order. */
  function ColumnView(t: Tables, u: Id, c: Id): BoardColumn
    requires WellFormed(t) && c in t.columns
  {
    AppQueryMembers(t, AppOwnedIn(t.apps, u, c));
    BoardColumn(t.columns[c], AppRows(t.apps, ColumnAppOrder(t, u, c)))
  }

  /** The board: the user's columns in position order, each with the user's applications
      in it in position order. */
  function BoardView(t: Tables, u: Id): (view: seq<BoardColumn>)
    requires WellFormed(t)
    ensures |view| == |UserColumns(t, u)|
  {
    var o := UserColumns(t, u);
    UserColumnsMembers(t, u);
    assert forall i | 0 <= i < |o| :: o[i] in t.columns by {
      forall i | 0 <= i < |o| ensures o[i] in t.columns {
        assert o[i] in o;
      }
    }
    seq(|o|, i requires 0 <= i < |o| => ColumnView(t, u, o[i]))
  }

  /** `list.filter(app => app.columnId === c)` over rows. */
  function RowInColumn(c: Id): AppRow -> bool {
    (a: AppRow) => a.columnId == c
  }

  /** `appsByColumn.get(c) ?? []`. */
  function Lookup(groups: map<Id, seq<AppRow>>, c: Id): seq<AppRow> {
    if c in groups then groups[c] else []
  }

  /** The grouping loop of the loader: each row is appended to the list of its column. */
  method GroupByColumn(applications: seq<AppRow>) returns (appsByColumn: map<Id, seq<AppRow>>)
    ensures forall c :: Lookup(appsByColumn, c) == Filter(applications, RowInColumn(c))
  {
    appsByColumn := map[];
    var i := 0;
    while i < |applications|
      invariant 0 <= i <= |applications|
      invariant forall c :: Lookup(appsByColumn, c) == Filter(applications[..i], RowInColumn(c))
    {
      var app := applications[i];
      var list := Lookup(appsByColumn, app.columnId);
      list := list + [app];
      appsByColumn := appsByColumn[app.columnId := list];
      PrefixSnoc(applications, i + 1);
      forall c ensures Lookup(appsByColumn, c) == Filter(applications[..i + 1], RowInColumn(c)) {
        FilterSnoc(applications[..i], app, RowInColumn(c));
      }
      i := i + 1;
    }
    assert applications[..i] == applications;
  }

  lemma AppRowsSnoc(apps: map<Id, AppRow>, ids: seq<Id>, x: Id)
    requires forall id | id in ids :: id in apps
    requires x in apps
    ensures AppRows(apps, ids + [x]) == AppRows(apps, ids) + [apps[x]]
  {
  }

  /** The step of `AppRowsFilter`: appending one key to both sides. */
  lemma AppRowsFilterSnoc(apps: map<Id, AppRow>, ids: seq<Id>, x: Id, c: Id)
    requires forall id | id in ids :: id in apps
    requires x in apps
    requires forall id | id in Filter(ids, InColumn(apps, c)) :: id in apps
    requires Filter(AppRows(apps, ids), RowInColumn(c)) == AppRows(apps, Filter(ids, InColumn(apps, c)))
    ensures forall id | id in ids + [x] :: id in apps
    ensures forall id | id in Filter(ids + [x], InColumn(apps, c)) :: id in apps
    ensures Filter(AppRows(apps, ids + [x]), RowInColumn(c)) == AppRows(apps, Filter(ids + [x], InColumn(apps, c)))
  {
    var f := Filter(ids, InColumn(apps, c));
    AppRowsSnoc(apps, ids, x);
    FilterSnoc(AppRows(apps, ids), apps[x], RowInColumn(c));
    FilterSnoc(ids, x, InColumn(apps, c));
    if InColumn(apps, c)(x) {
      AppRowsSnoc(apps, f, x);
    }
  }

  /** Filtering rows by column is filtering their keys by column. */
  lemma {:induction false} AppRowsFilter(apps: map<Id, AppRow>, ids: seq<Id>, c: Id)
    requires forall id | id in ids :: id in apps
    ensures forall id | id in Filter(ids, InColumn(apps, c)) :: id in apps
    ensures Filter(AppRows(apps, ids), RowInColumn(c)) == AppRows(apps, Filter(ids, InColumn(apps, c)))
  {
    FilterMembers(ids, InColumn(apps, c));
    if ids != [] {
      var ids' := ids[..|ids| - 1];
      var x := ids[|ids| - 1];
      assert ids == ids' + [x];
      assert forall id | id in ids' :: id in ids;
      AppRowsFilter(apps, ids', c);
      AppRowsFilterSnoc(apps, ids', x, c);
    }
  }

  /** Grouping the user's applications, already in position order, by column gives for each
      column the user's applications in it in position order. */
  lemma GroupIsColumnApps(t: Tables, u: Id, c: Id)
    requires WellFormed(t)
    ensures forall id | id in UserAppOrder(t, u) :: id in t.apps
    ensures forall id | id in ColumnAppOrder(t, u, c) :: id in t.apps
    ensures Filter(AppRows(t.apps, UserAppOrder(t, u)), RowInColumn(c)) == AppRows(t.apps, ColumnAppOrder(t, u, c))
  {
    var key := AppPosition(t.apps);
    var mine := Filter(t.appOrder, AppOwnedBy(t.apps, u));
    AppQueryMembers(t, AppOwnedBy(t.apps, u));
    AppQueryMembers(t, AppOwnedIn(t.apps, u, c));
    AppRowsFilter(t.apps, UserAppOrder(t, u), c);
    SortFilter(mine, key, InColumn(t.apps, c));
    FilterFilter(t.appOrder, AppOwnedBy(t.apps, u), InColumn(t.apps, c), AppOwnedIn(t.apps, u, c));
  }

  /** When every application in `c` is the user's, the board's list for `c` is the column
      query the handlers use. */
  lemma ColumnAppsAreColumnOrder(t: Tables, u: Id, c: Id)
    requires WellFormed(t)
    requires forall x | x in t.apps && t.apps[x].columnId == c :: t.apps[x].userId == u
    ensures ColumnAppOrder(t, u, c) == ColumnOrder(t, c)
  {
    FilterCongruent(t.appOrder, AppOwnedIn(t.apps, u, c), InColumn(t.apps, c));
  }

  /** On a board whose applications sit in columns of their own user, the board's list for
      any column of the user is the column query the handlers use. */
  lemma OwnedColumnAppsAreColumnOrder(t: Tables, u: Id, c: Id)
    requires WellFormed(t) && ColumnsOwned(t) && OwnsColumn(t, u, c)
    ensures ColumnAppOrder(t, u, c) == ColumnOrder(t, c)
  {
    forall x | x in t.apps && t.apps[x].columnId == c ensures t.apps[x].userId == u {
      assert OwnsColumn(t, t.apps[x].userId, t.apps[x].columnId);
    }
    ColumnAppsAreColumnOrder(t, u, c);
  }

  /** Rows under distinct keys of a table keyed by `id` are distinct, and each is the
      table's row under its own id. */
  lemma AppRowsKeyed(apps: map<Id, AppRow>, ids: seq<Id>)
    requires forall id | id in ids :: id in apps
    requires forall id | id in apps :: apps[id].id == id
    requires Distinct(ids)
    ensures Distinct(AppRows(apps, ids))
    ensures forall a | a in AppRows(apps, ids) :: a.id in ids && apps[a.id] == a
  {
    var rows := AppRows(apps, ids);
    forall a | a in rows ensures a.id in ids && apps[a.id] == a {
      var k :| 0 <= k < |rows| && rows[k] == a;
      assert ids[k] in ids;
    }
    forall j, k | 0 <= j < k < |rows| ensures rows[j] != rows[k] {
      assert ids[j] in ids && ids[k] in ids;
    }
  }

  /** The list of one column holds rows of that column owned by the user, each once. */
  lemma ColumnViewRows(t: Tables, u: Id, c: Id)
    requires WellFormed(t) && c in t.columns
    ensures var v := ColumnView(t, u, c);
      && v.column.id == c
      && Distinct(v.applications)
      && forall a | a in v.applications ::
           a.id in t.apps && t.apps[a.id] == a && a.userId == u && a.columnId == c
  {
    var ids := ColumnAppOrder(t, u, c);
    AppQueryMembers(t, AppOwnedIn(t.apps, u, c));
    AppRowsKeyed(t.apps, ids);
  }

  /** Each list of the board holds rows of that column owned by the user, each once. */
  lemma ViewRows(t: Tables, u: Id, i: nat)
    requires WellFormed(t) && i < |BoardView(t, u)|
    ensures var v := BoardView(t, u)[i];
      && Distinct(v.applications)
      && forall a | a in v.applications ::
           a.id in t.apps && t.apps[a.id] == a && a.userId == u && a.columnId == v.column.id
  {
    var o := UserColumns(t, u);
    UserColumnsMembers(t, u);
    assert o[i] in o;
    ColumnViewRows(t, u, o[i]);
  }

  /** Every application of the user that is in one of the user's columns is on the board. */
  lemma ViewComplete(t: Tables, u: Id, x: Id)
    requires WellFormed(t) && OwnsApp(t, u, x) && OwnsColumn(t, u, t.apps[x].columnId)
    ensures exists i | 0 <= i < |BoardView(t, u)| :: t.apps[x] in BoardView(t, u)[i].applications
  {
    var o := UserColumns(t, u);
    var c := t.apps[x].columnId;
    UserColumnsMembers(t, u);
    var i := IndexOf(o, c);
    var ids := ColumnAppOrder(t, u, c);
    AppQueryMembers(t, AppOwnedIn(t.apps, u, c));
    assert AppOwnedIn(t.apps, u, c)(x);
    assert x in ids;
    var k := IndexOf(ids, x);
    assert BoardView(t, u)[i] == ColumnView(t, u, c);
    assert ColumnView(t, u, c).applications == AppRows(t.apps, ids);
    assert AppRows(t.apps, ids)[k] == t.apps[x];
  }

  /** The column rows under a list of keys. */
  function ColumnRows(columns: map<Id, ColumnRow>, ids: seq<Id>): (rows: seq<ColumnRow>)
    requires forall id | id in ids :: id in columns
    ensures |rows| == |ids|
    ensures forall i | 0 <= i < |ids| :: rows[i] == columns[ids[i]]
  {
    seq(|ids|, i requires 0 <= i < |ids| => columns[ids[i]])
  }

  /** `columns.map(col => ({ ...col, applications: appsByColumn.get(col.id) ?? [] }))`. */
  function Attach(rows: seq<ColumnRow>, groups: map<Id, seq<AppRow>>): (view: seq<BoardColumn>)
    ensures |view| == |rows|
    ensures forall i | 0 <= i < |rows| :: view[i] == BoardColumn(rows[i], Lookup(groups, rows[i].id))
  {
    seq(|rows|, i requires 0 <= i < |rows| => BoardColumn(rows[i], Lookup(groups, rows[i].id)))
  }

  /** Attaching the groups of the user's applications to the user's columns gives the board. */
  lemma AttachGroups(t: Tables, u: Id, groups: map<Id, seq<AppRow>>)
    requires WellFormed(t)
    requires forall id | id in UserColumns(t, u) :: id in t.columns
    requires forall id | id in UserAppOrder(t, u) :: id in t.apps
    requires forall c :: Lookup(groups, c) == Filter(AppRows(t.apps, UserAppOrder(t, u)), RowInColumn(c))
    ensures Attach(ColumnRows(t.columns, UserColumns(t, u)), groups) == BoardView(t, u)
  {
    var o := UserColumns(t, u);
    var a := Attach(ColumnRows(t.columns, o), groups);
    var b := BoardView(t, u);
    forall i | 0 <= i < |o| ensures a[i] == b[i] {
      assert o[i] in o;
      GroupIsColumnApps(t, u, o[i]);
      assert b[i] == ColumnView(t, u, o[i]);
    }
  }

  /** The route loader: seed the defaults for a user with no column, then read the
      columns and the applications and group the applications by column. */
  method Loader(db: Board, userId: Id, now: int, seedIds: seq<Id>) returns (view: seq<BoardColumn>)
    requires db.Valid() && FreshSeedIds(db.Snapshot(), seedIds)
    modifies db
    ensures db.Valid()
    ensures db.Snapshot() == Seeded(old(db.Snapshot()), userId, now, seedIds)
    ensures old(UserColumnCount(db.Snapshot(), userId)) > 0 ==> db.Snapshot() == old(db.Snapshot())
    ensures old(ColumnsOwned(db.Snapshot())) ==> ColumnsOwned(db.Snapshot())
    ensures view == BoardView(db.Snapshot(), userId)
  {
    var t0 := db.Snapshot();
    var columnCount := UserColumnCount(t0, userId);
    if columnCount == 0 {
      SeedEffect(t0, userId, now, seedIds);
      db.Batch(InsertColumns(SeedRows(userId, now, seedIds)));
    }
    var t := db.Snapshot();
    UserColumnsMembers(t, userId);
    var columns := ColumnRows(t.columns, UserColumns(t, userId));
    AppQueryMembers(t, AppOwnedBy(t.apps, userId));
    var applications := AppRows(t.apps, UserAppOrder(t, userId));
    var appsByColumn := GroupByColumn(applications);
    AttachGroups(t, userId, appsByColumn);
    view := Attach(columns, appsByColumn);
  }

  // ---------------------------------------------------------------------------
  // Column colors

  /** `COLUMN_COLORS`: the color names the board knows, with their hex values. */
  const ColumnColors: map<string, string> := map[
    "indigo" := "#6366F1",
    "blue" := "#3B82F6",
    "amber" := "#F59E0B",
    "green" := "#22C55E",
    "teal" := "#14B8A6",
    "purple" := "#A855F7",
    "pink" := "#EC4899",
    "orange" := "#F97316",
    "red" := "#EF4444"
  ]

  /** The color a column whose name is not in `COLUMN_COLORS` is drawn with. */
  const FallbackColor: string := "#6B7280"

  predicate IsHexDigit(ch: char) {
    '0' <= ch <= '9' || 'A' <= ch <= 'F' || 'a' <= ch <= 'f'
  }

  /** A CSS color written `#RRGGBB`. */
  predicate IsHexColor(s: string) {
    |s| == 7 && s[0] == '#' && forall i | 1 <= i < 7 :: IsHexDigit(s[i])
  }

  /** The properties every object literal inherits from `Object.prototype`. */
  const InheritedNames: set<string> := {
    "constructor", "hasOwnProperty", "isPrototypeOf", "propertyIsEnumerable",
    "toLocaleString", "toString", "valueOf", "__proto__",
    "__defineGetter__", "__defineSetter__", "__lookupGetter__", "__lookupSetter__"
  }

  /** What `COLUMN_COLORS[name] ?? "#6B7280"` evaluates to in JavaScript: a string, or an
      inherited member (a function, or the prototype object), which is not nullish. */
  datatype JsValue = Str(s: string) | InheritedMember(name: string)

  /** `COLUMN_COLORS[column.color] ?? "#6B7280"` as written: the index also finds the
      inherited members of the object literal. */
  function ColorLookupAsWritten(name: string): JsValue {
    if name in ColumnColors then Str(ColumnColors[name])
    else if name in InheritedNames then InheritedMember(name)
    else Str(FallbackColor)
  }

  /** A column can be given the color `"constructor"`, and the lookup then yields no string. */
  lemma ColorLookupInherited()
    ensures ColorLookupAsWritten("constructor") == InheritedMember("constructor")
  {
    assert "constructor" !in ColumnColors;
  }

  /** The color lookup with the fallback for every name that is not one of the board's own
      color names. */
  function ColorHex(name: string): (hex: string)
    ensures IsHexColor(hex)
    ensures name in ColumnColors ==> hex == ColumnColors[name]
    ensures name !in ColumnColors ==> hex == FallbackColor
  {
    if name in ColumnColors then ColumnColors[name] else FallbackColor
  }

  /** The corrected lookup agrees with the one as written on every name that is not an
      inherited property name. */
  lemma ColorHexAgrees(name: string)
    requires name !in InheritedNames
    ensures ColorLookupAsWritten(name) == Str(ColorHex(name))
  {
  }

  /** The four default columns have colors of their own, not the fallback. */
  lemma DefaultColorsKnown(i: nat)
    requires i < |DefaultColumns|
    ensures DefaultColumns[i].color in ColumnColors
    ensures ColorHex(DefaultColumns[i].color) != FallbackColor
  {
  }
}
