/**
 * The record store behind the kanban routes: the rows of the four tables, the
 * write statements the handlers issue, the read queries they run, and the
 * `Board` object that executes statements one at a time.
 *
 * A table is a map from primary key to row plus the order in which a full scan
 * returns the rows (insertion order). `db.batch([...])` runs its statements in
 * order, one after the other, with no rollback. Foreign keys are not enforced.
 */
module Store {
  import opened Wrappers
  import opened Schema
  import opened Ordering

  datatype Tables = Tables(
    columns: map<Id, ColumnRow>,
    colOrder: seq<Id>,
    apps: map<Id, AppRow>,
    appOrder: seq<Id>,
    contacts: seq<ContactRow>,
    transitions: seq<TransitionRow>)

  const EmptyTables: Tables := Tables(map[], [], map[], [], [], [])

  /** The scan orders list each primary key once, and each row is stored under its own id. */
  ghost predicate WellFormed(t: Tables) {
    && Distinct(t.colOrder)
    && (forall id :: id in t.columns <==> id in t.colOrder)
    && (forall id | id in t.columns :: t.columns[id].id == id)
    && Distinct(t.appOrder)
    && (forall id :: id in t.apps <==> id in t.appOrder)
    && (forall id | id in t.apps :: t.apps[id].id == id)
  }

  /** One statement of a batch. */
  datatype Stmt =
    | InsertColumn(column: ColumnRow)
    | UpdateColumn(columnId: Id, columnPatch: ColumnPatch)
    | DeleteColumn(columnId: Id)
    | InsertApp(app: AppRow)
    | UpdateApp(appId: Id, patch: AppPatch)
    | DeleteApp(appId: Id)
    | InsertTransition(transition: TransitionRow)

  /**
   * The effect of one statement. An UPDATE or DELETE whose WHERE matches no row does
   * nothing; deleting an application cascades to its contacts and transitions; deleting
   * a column touches no other table. An INSERT under a key already present is a no-op
   * here (the handlers only insert fresh ids).
   */
  function Apply(t: Tables, s: Stmt): Tables {
    match s
    case InsertColumn(c) =>
      if c.id in t.columns then t
      else t.(columns := t.columns[c.id := c], colOrder := t.colOrder + [c.id])
    case UpdateColumn(id, p) =>
      if id in t.columns then t.(columns := t.columns[id := ApplyColumnPatch(t.columns[id], p)]) else t
    case DeleteColumn(id) =>
      t.(columns := t.columns - {id}, colOrder := RemoveAll(t.colOrder, id))
    case InsertApp(a) =>
      if a.id in t.apps then t
      else t.(apps := t.apps[a.id := a], appOrder := t.appOrder + [a.id])
    case UpdateApp(id, p) =>
      if id in t.apps then t.(apps := t.apps[id := ApplyAppPatch(t.apps[id], p)]) else t
    case DeleteApp(id) =>
      t.(apps := t.apps - {id}, appOrder := RemoveAll(t.appOrder, id),
         contacts := CascadeContacts(t.contacts, id),
         transitions := CascadeTransitions(t.transitions, id))
    case InsertTransition(tr) =>
      t.(transitions := t.transitions + [tr])
  }

  /** `db.batch(ss)`: the statements applied in order. */
  function Run(t: Tables, ss: seq<Stmt>): Tables {
    if ss == [] then t else Apply(Run(t, ss[..|ss| - 1]), ss[|ss| - 1])
  }

  lemma RunSnoc(t: Tables, ss: seq<Stmt>, s: Stmt)
    ensures Run(t, ss + [s]) == Apply(Run(t, ss), s)
  {
    assert (ss + [s])[..|ss|] == ss;
  }

  /** A prefix of a batch one statement longer is the shorter prefix and that statement. */
  lemma RunPrefix(t: Tables, ss: seq<Stmt>, k: nat)
    requires 0 < k <= |ss|
    ensures Run(t, ss[..k]) == Apply(Run(t, ss[..k - 1]), ss[k - 1])
  {
    assert ss[..k][..k - 1] == ss[..k - 1];
  }

  lemma RunPair(t: Tables, s1: Stmt, s2: Stmt)
    ensures Run(t, [s1, s2]) == Apply(Apply(t, s1), s2)
  {
    assert [s1, s2][..1] == [s1];
    assert [s1][..0] == [];
    assert Run(t, [s1]) == Apply(Run(t, []), s1);
  }

  /** Inserting a transition appends it and touches no other table. */
  lemma ApplyInsertTransition(t: Tables, tr: TransitionRow)
    ensures Apply(t, InsertTransition(tr)) == t.(transitions := t.transitions + [tr])
  {
  }

  /** Running two batches one after the other is running their concatenation. */
  lemma {:induction false} RunAppend(t: Tables, a: seq<Stmt>, b: seq<Stmt>)
    ensures Run(t, a + b) == Run(Run(t, a), b)
  {
    if b == [] {
      assert a + b == a;
    } else {
      var b' := b[..|b| - 1];
      assert a + b == (a + b') + [b[|b| - 1]];
      RunAppend(t, a, b');
      RunSnoc(t, a + b', b[|b| - 1]);
    }
  }

  /** Every statement keeps the store well formed. */
  lemma ApplyWellFormed(t: Tables, s: Stmt)
    requires WellFormed(t)
    ensures WellFormed(Apply(t, s))
  {
    match s
    case InsertColumn(c) => InsertColumnWellFormed(t, c);
    case UpdateColumn(id, p) =>
    case DeleteColumn(id) => DeleteColumnWellFormed(t, id);
    case InsertApp(a) => InsertAppWellFormed(t, a);
    case UpdateApp(id, p) =>
    case DeleteApp(id) => DeleteAppWellFormed(t, id);
    case InsertTransition(tr) =>
  }

  lemma InsertColumnWellFormed(t: Tables, c: ColumnRow)
    requires WellFormed(t)
    ensures WellFormed(Apply(t, InsertColumn(c)))
  {
    if c.id !in t.columns {
      DistinctSnoc(t.colOrder, c.id);
    }
  }

  lemma InsertAppWellFormed(t: Tables, a: AppRow)
    requires WellFormed(t)
    ensures WellFormed(Apply(t, InsertApp(a)))
  {
    if a.id !in t.apps {
      DistinctSnoc(t.appOrder, a.id);
    }
  }

  lemma DeleteColumnWellFormed(t: Tables, id: Id)
    requires WellFormed(t)
    ensures WellFormed(Apply(t, DeleteColumn(id)))
  {
    RemoveAllDistinct(t.colOrder, id);
  }

  lemma DeleteAppWellFormed(t: Tables, id: Id)
    requires WellFormed(t)
    ensures WellFormed(Apply(t, DeleteApp(id)))
  {
    RemoveAllDistinct(t.appOrder, id);
  }

  lemma {:induction false} RunWellFormed(t: Tables, ss: seq<Stmt>)
    requires WellFormed(t)
    ensures WellFormed(Run(t, ss))
  {
    if ss != [] {
      RunWellFormed(t, ss[..|ss| - 1]);
      ApplyWellFormed(Run(t, ss[..|ss| - 1]), ss[|ss| - 1]);
    }
  }

  // ---------------------------------------------------------------------------
  // Queries

  /** `WHERE application.column_id = c`. */
  function InColumn(apps: map<Id, AppRow>, c: Id): Id -> bool {
    id => id in apps && apps[id].columnId == c
  }

  /** The sort key `application.position`. */
  function AppPosition(apps: map<Id, AppRow>): Id -> int {
    id => if id in apps then apps[id].position else 0
  }

  /** `SELECT id FROM application WHERE column_id = c`, in scan order. */
  function ColumnIds(t: Tables, c: Id): seq<Id> {
    Filter(t.appOrder, InColumn(t.apps, c))
  }

  /** `SELECT id FROM application WHERE column_id = c ORDER BY position`. */
  function ColumnOrder(t: Tables, c: Id): seq<Id> {
    SortBy(ColumnIds(t, c), AppPosition(t.apps))
  }

  /** `SELECT count() FROM application WHERE column_id = c`. */
  function AppCount(t: Tables, c: Id): nat {
    |ColumnIds(t, c)|
  }

  /** The positions in column `c`, read in position order, are exactly 0, 1, ..., n - 1. */
  predicate ColumnDense(t: Tables, c: Id) {
    Indexed(ColumnOrder(t, c), AppPosition(t.apps))
  }

  /** Every column's positions are dense. */
  ghost predicate BoardDense(t: Tables) {
    forall c :: ColumnDense(t, c)
  }

  /** `WHERE board_column.user_id = u`. */
  function OwnedBy(columns: map<Id, ColumnRow>, u: Id): Id -> bool {
    id => id in columns && columns[id].userId == u
  }

  function ColumnPosition(columns: map<Id, ColumnRow>): Id -> int {
    id => if id in columns then columns[id].position else 0
  }

  function UserColumnIds(t: Tables, u: Id): seq<Id> {
    Filter(t.colOrder, OwnedBy(t.columns, u))
  }

  /** `SELECT id FROM board_column WHERE user_id = u ORDER BY position`. */
  function UserColumns(t: Tables, u: Id): seq<Id> {
    SortBy(UserColumnIds(t, u), ColumnPosition(t.columns))
  }

  function UserColumnCount(t: Tables, u: Id): nat {
    |UserColumnIds(t, u)|
  }

  predicate UserColumnsDense(t: Tables, u: Id) {
    Indexed(UserColumns(t, u), ColumnPosition(t.columns))
  }

  /** `WHERE board_column.id = c AND board_column.user_id = u` finds a row. */
  predicate OwnsColumn(t: Tables, u: Id, c: Id) {
    c in t.columns && t.columns[c].userId == u
  }

  /** `WHERE application.id = a AND application.user_id = u` finds a row. */
  predicate OwnsApp(t: Tables, u: Id, a: Id) {
    a in t.apps && t.apps[a].userId == u
  }

  /** Every application refers to a column that exists. */
  predicate ColumnsReferenced(t: Tables) {
    forall id | id in t.apps :: t.apps[id].columnId in t.columns
  }

  /** Every application refers to a column that exists and belongs to the application's
      own user. It implies `ColumnsReferenced`. */
  predicate ColumnsOwned(t: Tables) {
    forall id | id in t.apps :: OwnsColumn(t, t.apps[id].userId, t.apps[id].columnId)
  }

  // ---------------------------------------------------------------------------
  // What the queries return

  /** The ids of a distinct list and of another distinct list with the same members
      form the same multiset. */
  lemma DistinctSameMembers(a: seq<Id>, b: seq<Id>)
    requires Distinct(a) && Distinct(b)
    requires forall x :: x in a <==> x in b
    ensures multiset(a) == multiset(b)
  {
    DistinctMultiset(a);
    DistinctMultiset(b);
    forall x ensures multiset(a)[x] == multiset(b)[x] {
      if x in a {
        assert x in multiset(a) && x in multiset(b);
      } else {
        assert x !in multiset(a) && x !in multiset(b);
      }
    }
  }

  /** The column query returns each application of the column exactly once. */
  lemma ColumnOrderMembers(t: Tables, c: Id)
    requires WellFormed(t)
    ensures Distinct(ColumnIds(t, c)) && Distinct(ColumnOrder(t, c))
    ensures forall id :: id in ColumnIds(t, c) <==> id in t.apps && t.apps[id].columnId == c
    ensures forall id :: id in ColumnOrder(t, c) <==> id in t.apps && t.apps[id].columnId == c
  {
    FilterMembers(t.appOrder, InColumn(t.apps, c));
    FilterDistinct(t.appOrder, InColumn(t.apps, c));
    SortByMembers(ColumnIds(t, c), AppPosition(t.apps));
    SortByDistinct(ColumnIds(t, c), AppPosition(t.apps));
  }

  /**
   * After a renumbering pass that gave the i-th element of `o` position i, where `o`
   * lists exactly the applications of column `c`, the column query returns `o`.
   */
  lemma ColumnOrderIs(t: Tables, c: Id, o: seq<Id>)
    requires WellFormed(t) && Distinct(o)
    requires forall id :: id in o <==> id in t.apps && t.apps[id].columnId == c
    requires forall i | 0 <= i < |o| :: o[i] in t.apps && t.apps[o[i]].position == i
    ensures ColumnOrder(t, c) == o
    ensures ColumnDense(t, c)
  {
    ColumnOrderMembers(t, c);
    DistinctSameMembers(ColumnIds(t, c), o);
    SortIndexed(ColumnIds(t, c), o, AppPosition(t.apps));
  }

  lemma UserColumnsMembers(t: Tables, u: Id)
    requires WellFormed(t)
    ensures Distinct(UserColumnIds(t, u)) && Distinct(UserColumns(t, u))
    ensures forall id :: id in UserColumnIds(t, u) <==> OwnsColumn(t, u, id)
    ensures forall id :: id in UserColumns(t, u) <==> OwnsColumn(t, u, id)
  {
    FilterMembers(t.colOrder, OwnedBy(t.columns, u));
    FilterDistinct(t.colOrder, OwnedBy(t.columns, u));
    SortByMembers(UserColumnIds(t, u), ColumnPosition(t.columns));
    SortByDistinct(UserColumnIds(t, u), ColumnPosition(t.columns));
  }

  /** The user-columns counterpart of `ColumnOrderIs`. */
  lemma UserColumnsIs(t: Tables, u: Id, o: seq<Id>)
    requires WellFormed(t) && Distinct(o)
    requires forall id :: id in o <==> OwnsColumn(t, u, id)
    requires forall i | 0 <= i < |o| :: o[i] in t.columns && t.columns[o[i]].position == i
    ensures UserColumns(t, u) == o
    ensures UserColumnsDense(t, u)
  {
    UserColumnsMembers(t, u);
    DistinctSameMembers(UserColumnIds(t, u), o);
    SortIndexed(UserColumnIds(t, u), o, ColumnPosition(t.columns));
  }

  // ---------------------------------------------------------------------------
  // Batches of UPDATEs by primary key

  predicate OnlyAppUpdates(ss: seq<Stmt>) {
    forall i | 0 <= i < |ss| :: ss[i].UpdateApp?
  }

  /** The ids the UPDATE statements of `ss` address, in statement order. */
  function Targets(ss: seq<Stmt>): (r: seq<Id>)
    requires OnlyAppUpdates(ss)
    ensures |r| == |ss|
    ensures forall i | 0 <= i < |ss| :: r[i] == ss[i].appId
  {
    if ss == [] then [] else Targets(ss[..|ss| - 1]) + [ss[|ss| - 1].appId]
  }

  lemma AppendIndexRight<T>(a: seq<T>, b: seq<T>, i: int)
    requires 0 <= i < |b|
    ensures (a + b)[|a| + i] == b[i]
  {
  }

  lemma TargetsAppend(a: seq<Stmt>, b: seq<Stmt>)
    requires OnlyAppUpdates(a) && OnlyAppUpdates(b)
    ensures OnlyAppUpdates(a + b)
    ensures Targets(a + b) == Targets(a) + Targets(b)
  {
    assert OnlyAppUpdates(a + b) by {
      forall i | 0 <= i < |a + b| ensures (a + b)[i].UpdateApp? {
        if i >= |a| { assert (a + b)[i] == b[i - |a|]; }
      }
    }
  }

  /**
   * A batch of UPDATEs on distinct applications applies each patch to its own row and
   * leaves every other row, and every other table, as it was.
   */
  lemma {:induction false} RunAppUpdates(t: Tables, ss: seq<Stmt>)
    requires OnlyAppUpdates(ss) && Distinct(Targets(ss))
    ensures Run(t, ss) == t.(apps := Run(t, ss).apps)
    ensures Run(t, ss).apps.Keys == t.apps.Keys
    ensures forall i | 0 <= i < |ss| && ss[i].appId in t.apps ::
      Run(t, ss).apps[ss[i].appId] == ApplyAppPatch(t.apps[ss[i].appId], ss[i].patch)
    ensures forall id | id in t.apps && id !in Targets(ss) :: Run(t, ss).apps[id] == t.apps[id]
  {
    if ss != [] {
      var n := |ss|;
      var ss' := ss[..n - 1];
      var s := ss[n - 1];
      assert Targets(ss') == Targets(ss)[..n - 1];
      assert OnlyAppUpdates(ss');
      RunAppUpdates(t, ss');
      assert s.appId == Targets(ss)[n - 1];
      forall j | 0 <= j < n - 1 ensures Targets(ss')[j] != s.appId {
        assert Targets(ss')[j] == Targets(ss)[j];
      }
      var t2 := Apply(Run(t, ss'), s);
      assert Run(t, ss) == t2;
      AppUpdateStep(t, Run(t, ss'), ss', s);
      forall id | id in t.apps && id !in Targets(ss) ensures id !in Targets(ss') && id != s.appId {
        forall j | 0 <= j < n - 1 ensures Targets(ss')[j] != id {
          assert Targets(ss')[j] == Targets(ss)[j];
        }
      }
      forall i | 0 <= i < n && ss[i].appId in t.apps
        ensures t2.apps[ss[i].appId] == ApplyAppPatch(t.apps[ss[i].appId], ss[i].patch)
      {
        if i < n - 1 {
          assert ss'[i] == ss[i];
        }
      }
    }
  }

  /** The last UPDATE of a batch on distinct applications: it patches its own row and
      keeps the rows the earlier UPDATEs produced. */
  lemma AppUpdateStep(t: Tables, t1: Tables, ss: seq<Stmt>, s: Stmt)
    requires OnlyAppUpdates(ss) && s.UpdateApp?
    requires forall j | 0 <= j < |ss| :: Targets(ss)[j] != s.appId
    requires t1 == t.(apps := t1.apps) && t1.apps.Keys == t.apps.Keys
    requires forall i | 0 <= i < |ss| && ss[i].appId in t.apps ::
      t1.apps[ss[i].appId] == ApplyAppPatch(t.apps[ss[i].appId], ss[i].patch)
    requires forall id | id in t.apps && id !in Targets(ss) :: t1.apps[id] == t.apps[id]
    ensures var t2 := Apply(t1, s);
      && t2 == t.(apps := t2.apps) && t2.apps.Keys == t.apps.Keys
      && (forall i | 0 <= i < |ss| && ss[i].appId in t.apps ::
            t2.apps[ss[i].appId] == ApplyAppPatch(t.apps[ss[i].appId], ss[i].patch))
      && (s.appId in t.apps ==> t2.apps[s.appId] == ApplyAppPatch(t.apps[s.appId], s.patch))
      && (forall id | id in t.apps && id !in Targets(ss) && id != s.appId :: t2.apps[id] == t.apps[id])
  {
    assert s.appId !in Targets(ss);
    forall i | 0 <= i < |ss| ensures ss[i].appId != s.appId {
      assert Targets(ss)[i] == ss[i].appId;
    }
  }

  predicate OnlyColumnUpdates(ss: seq<Stmt>) {
    forall i | 0 <= i < |ss| :: ss[i].UpdateColumn?
  }

  function ColumnTargets(ss: seq<Stmt>): (r: seq<Id>)
    requires OnlyColumnUpdates(ss)
    ensures |r| == |ss|
    ensures forall i | 0 <= i < |ss| :: r[i] == ss[i].columnId
  {
    if ss == [] then [] else ColumnTargets(ss[..|ss| - 1]) + [ss[|ss| - 1].columnId]
  }

  /** The column-table counterpart of `RunAppUpdates`. */
  lemma {:induction false} RunColumnUpdates(t: Tables, ss: seq<Stmt>)
    requires OnlyColumnUpdates(ss) && Distinct(ColumnTargets(ss))
    ensures Run(t, ss) == t.(columns := Run(t, ss).columns)
    ensures Run(t, ss).columns.Keys == t.columns.Keys
    ensures forall i | 0 <= i < |ss| && ss[i].columnId in t.columns ::
      Run(t, ss).columns[ss[i].columnId] == ApplyColumnPatch(t.columns[ss[i].columnId], ss[i].columnPatch)
    ensures forall id | id in t.columns && id !in ColumnTargets(ss) ::
      Run(t, ss).columns[id] == t.columns[id]
  {
    if ss != [] {
      var n := |ss|;
      var ss' := ss[..n - 1];
      assert ColumnTargets(ss') == ColumnTargets(ss)[..n - 1];
      assert OnlyColumnUpdates(ss');
      RunColumnUpdates(t, ss');
      var s := ss[n - 1];
      assert s.columnId !in ColumnTargets(ss') by {
        assert ColumnTargets(ss)[n - 1] == s.columnId;
      }
      forall id | id in t.columns && id !in ColumnTargets(ss)
        ensures Run(t, ss).columns[id] == t.columns[id]
      {
        assert id != s.columnId by {
          assert ColumnTargets(ss)[n - 1] == s.columnId;
        }
        assert id !in ColumnTargets(ss') by {
          forall j | 0 <= j < n - 1 ensures ColumnTargets(ss')[j] != id {
            assert ColumnTargets(ss')[j] == ColumnTargets(ss)[j];
          }
        }
      }
      forall i | 0 <= i < n && ss[i].columnId in t.columns
        ensures Run(t, ss).columns[ss[i].columnId] == ApplyColumnPatch(t.columns[ss[i].columnId], ss[i].columnPatch)
      {
        if i < n - 1 {
          assert ss'[i] == ss[i];
          assert ColumnTargets(ss)[i] != ColumnTargets(ss)[n - 1];
        }
      }
    }
  }

  // ---------------------------------------------------------------------------
  // How the column queries change

  /**
   * A column whose rows keep their column and their position, and that gains no row,
   * is returned the same by the column query. `t'` may differ anywhere else.
   */
  lemma ColumnOrderFrame(t: Tables, t': Tables, c: Id)
    requires t'.appOrder == t.appOrder && t'.apps.Keys == t.apps.Keys
    requires forall id | id in t.apps && (t.apps[id].columnId == c || t'.apps[id].columnId == c) ::
      t'.apps[id].columnId == t.apps[id].columnId && t'.apps[id].position == t.apps[id].position
    ensures ColumnIds(t', c) == ColumnIds(t, c)
    ensures ColumnOrder(t', c) == ColumnOrder(t, c)
  {
    FilterCongruent(t.appOrder, InColumn(t.apps, c), InColumn(t'.apps, c));
    FilterMembers(t.appOrder, InColumn(t.apps, c));
    SortByCongruent(ColumnIds(t, c), AppPosition(t.apps), AppPosition(t'.apps));
  }

  /** A column none of whose rows changed, and that gained no row, reads as before and
      is as dense as before. */
  lemma ColumnUntouched(t: Tables, t': Tables, c: Id)
    requires WellFormed(t) && t'.appOrder == t.appOrder && t'.apps.Keys == t.apps.Keys
    requires forall x | x in t.apps && (t.apps[x].columnId == c || t'.apps[x].columnId == c) :: t'.apps[x] == t.apps[x]
    ensures ColumnOrder(t', c) == ColumnOrder(t, c)
    ensures ColumnDense(t', c) == ColumnDense(t, c)
  {
    ColumnOrderFrame(t, t', c);
    ColumnOrderMembers(t, c);
    var o := ColumnOrder(t, c);
    forall i | 0 <= i < |o| ensures AppPosition(t'.apps)(o[i]) == AppPosition(t.apps)(o[i]) {
      assert o[i] in t.apps && t.apps[o[i]].columnId == c;
    }
  }

  /** The column query after inserting application `a`: `a` joins the end of the scan. */
  lemma InsertAppColumnIds(t: Tables, a: AppRow, c: Id)
    requires WellFormed(t) && a.id !in t.apps
    ensures ColumnIds(Apply(t, InsertApp(a)), c) ==
      ColumnIds(t, c) + (if a.columnId == c then [a.id] else [])
  {
    var t' := Apply(t, InsertApp(a));
    FilterSnoc(t.appOrder, a.id, InColumn(t'.apps, c));
    FilterCongruent(t.appOrder, InColumn(t.apps, c), InColumn(t'.apps, c));
  }

  /** Inserting an application leaves the order of every other column unchanged. */
  lemma InsertAppOtherColumn(t: Tables, a: AppRow, c: Id)
    requires WellFormed(t) && a.id !in t.apps && a.columnId != c
    ensures ColumnOrder(Apply(t, InsertApp(a)), c) == ColumnOrder(t, c)
  {
    var t' := Apply(t, InsertApp(a));
    assert t'.apps == t.apps[a.id := a];
    InsertAppColumnIds(t, a, c);
    assert ColumnIds(t', c) == ColumnIds(t, c);
    ColumnOrderMembers(t, c);
    forall x | x in ColumnIds(t, c) ensures AppPosition(t.apps)(x) == AppPosition(t'.apps)(x) {
      assert x in t.apps && x != a.id;
    }
    SortByCongruent(ColumnIds(t, c), AppPosition(t.apps), AppPosition(t'.apps));
  }

  /** Inserting at `position = count` keeps a dense column dense and appends the new
      row to its order. */
  lemma InsertAppAtEnd(t: Tables, a: AppRow)
    requires WellFormed(t) && a.id !in t.apps
    requires ColumnDense(t, a.columnId) && a.position == AppCount(t, a.columnId)
    ensures ColumnOrder(Apply(t, InsertApp(a)), a.columnId) == ColumnOrder(t, a.columnId) + [a.id]
    ensures ColumnDense(Apply(t, InsertApp(a)), a.columnId)
  {
    var c := a.columnId;
    var old_ := ColumnOrder(t, c);
    ColumnOrderMembers(t, c);
    ApplyWellFormed(t, InsertApp(a));
    DistinctSnoc(old_, a.id);
    InsertAppAtEndMembers(t, a);
    InsertAppAtEndPositions(t, a);
    ColumnOrderIs(Apply(t, InsertApp(a)), c, old_ + [a.id]);
  }

  /** After inserting an application, its column holds the old rows and the new one. */
  lemma InsertAppAtEndMembers(t: Tables, a: AppRow)
    requires WellFormed(t) && a.id !in t.apps
    ensures var t' := Apply(t, InsertApp(a));
      forall id :: id in ColumnOrder(t, a.columnId) + [a.id] <==> id in t'.apps && t'.apps[id].columnId == a.columnId
  {
    var t' := Apply(t, InsertApp(a));
    assert t'.apps == t.apps[a.id := a];
    ColumnOrderMembers(t, a.columnId);
  }

  /** After inserting at `position = count` into a dense column, the i-th row of the
      column followed by the new row sits at position i. */
  lemma InsertAppAtEndPositions(t: Tables, a: AppRow)
    requires WellFormed(t) && a.id !in t.apps
    requires ColumnDense(t, a.columnId) && a.position == AppCount(t, a.columnId)
    ensures var t' := Apply(t, InsertApp(a));
      var o := ColumnOrder(t, a.columnId) + [a.id];
      forall i | 0 <= i < |o| :: o[i] in t'.apps && t'.apps[o[i]].position == i
  {
    var c := a.columnId;
    var t' := Apply(t, InsertApp(a));
    assert t'.apps == t.apps[a.id := a];
    var old_ := ColumnOrder(t, c);
    var o := old_ + [a.id];
    ColumnOrderMembers(t, c);
    forall i | 0 <= i < |o| ensures o[i] in t'.apps && t'.apps[o[i]].position == i {
      if i < |old_| {
        assert o[i] == old_[i] && old_[i] in old_;
        assert AppPosition(t.apps)(old_[i]) == i;
      }
    }
  }

  /** Inserting an application into another column keeps a dense column dense. */
  lemma InsertAppOtherDense(t: Tables, a: AppRow, c: Id)
    requires WellFormed(t) && a.id !in t.apps && a.columnId != c && ColumnDense(t, c)
    ensures ColumnDense(Apply(t, InsertApp(a)), c)
  {
    var t' := t.(apps := t.apps[a.id := a], appOrder := t.appOrder + [a.id]);
    assert t' == Apply(t, InsertApp(a));
    var o := ColumnOrder(t, c);
    InsertAppOtherColumn(t, a, c);
    assert ColumnOrder(t', c) == o;
    ColumnOrderMembers(t, c);
    forall i | 0 <= i < |o| ensures AppPosition(t'.apps)(o[i]) == i {
      var x := o[i];
      assert x in t.apps;
      assert x != a.id;
      assert t'.apps[x] == t.apps[x];
      assert AppPosition(t.apps)(x) == i;
    }
  }

  /** Inserting at `position = count` keeps every dense column dense. */
  lemma InsertAppBoardDense(t: Tables, a: AppRow)
    requires WellFormed(t) && a.id !in t.apps && a.position == AppCount(t, a.columnId)
    requires BoardDense(t)
    ensures BoardDense(Apply(t, InsertApp(a)))
  {
    forall c ensures ColumnDense(Apply(t, InsertApp(a)), c) {
      if c == a.columnId {
        InsertAppAtEnd(t, a);
      } else {
        InsertAppOtherDense(t, a, c);
      }
    }
  }

  /** The column queries read only the application table. */
  lemma AppsFrame(t: Tables, t': Tables)
    requires t'.apps == t.apps && t'.appOrder == t.appOrder
    ensures forall c :: ColumnOrder(t', c) == ColumnOrder(t, c) && ColumnDense(t', c) == ColumnDense(t, c)
    ensures BoardDense(t') == BoardDense(t)
  {
  }

  /** The column query after deleting application `x`: the same scan without `x`. */
  lemma DeleteAppColumnIds(t: Tables, x: Id, c: Id)
    ensures ColumnIds(Apply(t, DeleteApp(x)), c) == RemoveAll(ColumnIds(t, c), x)
  {
    var t' := Apply(t, DeleteApp(x));
    var inC := InColumn(t.apps, c);
    var both := (y: Id) => y != x && inC(y);
    FilterFilter(t.appOrder, NotEqual(x), InColumn(t'.apps, c), both);
    FilterFilter(t.appOrder, inC, NotEqual(x), both);
  }

  /** Deleting an application removes it from its column's order and leaves the
      relative order of the others. */
  lemma DeleteAppColumnOrder(t: Tables, x: Id, c: Id)
    ensures ColumnOrder(Apply(t, DeleteApp(x)), c) == RemoveAll(ColumnOrder(t, c), x)
  {
    var t' := Apply(t, DeleteApp(x));
    var ids := ColumnIds(t, c);
    DeleteAppColumnIds(t, x, c);
    FilterMembers(ids, NotEqual(x));
    SortByCongruent(RemoveAll(ids, x), AppPosition(t.apps), AppPosition(t'.apps));
    SortFilter(ids, AppPosition(t.apps), NotEqual(x));
  }

  /** Deleting an application of another column leaves a column's order and positions. */
  lemma DeleteAppOtherColumn(t: Tables, x: Id, c: Id)
    requires WellFormed(t) && x in t.apps && t.apps[x].columnId != c
    ensures ColumnOrder(Apply(t, DeleteApp(x)), c) == ColumnOrder(t, c)
    ensures ColumnDense(Apply(t, DeleteApp(x)), c) == ColumnDense(t, c)
  {
    var k := ColumnOrder(t, c);
    DeleteAppColumnOrder(t, x, c);
    ColumnOrderMembers(t, c);
    RemoveAllAbsent(k, x);
    DeleteAppOtherPositions(t, x, c);
  }

  /** Deleting an application of another column leaves the positions of a column's rows. */
  lemma DeleteAppOtherPositions(t: Tables, x: Id, c: Id)
    requires WellFormed(t) && x in t.apps && t.apps[x].columnId != c
    ensures var k := ColumnOrder(t, c);
      forall i | 0 <= i < |k| :: AppPosition(Apply(t, DeleteApp(x)).apps)(k[i]) == AppPosition(t.apps)(k[i])
  {
    var k := ColumnOrder(t, c);
    var apps' := Apply(t, DeleteApp(x)).apps;
    assert apps' == t.apps - {x};
    ColumnOrderMembers(t, c);
    forall i | 0 <= i < |k| ensures AppPosition(apps')(k[i]) == AppPosition(t.apps)(k[i]) {
      assert k[i] in k;
      assert k[i] in t.apps && k[i] != x;
    }
  }

  /** `DELETE FROM board_column WHERE id = x` removes the row and touches no other table. */
  lemma ApplyDeleteColumn(t: Tables, x: Id)
    ensures Apply(t, DeleteColumn(x)) == t.(columns := t.columns - {x}, colOrder := RemoveAll(t.colOrder, x))
  {
  }

  /** A user's column list that reads the same, over rows whose positions did not change,
      is exactly as dense as before. */
  lemma UserColumnsDenseFrame(t: Tables, t': Tables, u: Id)
    requires WellFormed(t) && UserColumns(t', u) == UserColumns(t, u)
    requires forall id | OwnsColumn(t, u, id) :: id in t'.columns && t'.columns[id].position == t.columns[id].position
    ensures UserColumnsDense(t', u) == UserColumnsDense(t, u)
  {
    UserColumnsMembers(t, u);
    var o := UserColumns(t, u);
    forall i | 0 <= i < |o| ensures ColumnPosition(t'.columns)(o[i]) == ColumnPosition(t.columns)(o[i]) {
      assert o[i] in o;
    }
  }

  /** The user-columns counterpart of `ColumnOrderFrame`. */
  lemma UserColumnsFrame(t: Tables, t': Tables, u: Id)
    requires t'.colOrder == t.colOrder && t'.columns.Keys == t.columns.Keys
    requires forall id | id in t.columns && (t.columns[id].userId == u || t'.columns[id].userId == u) ::
      t'.columns[id].userId == t.columns[id].userId && t'.columns[id].position == t.columns[id].position
    ensures UserColumnIds(t', u) == UserColumnIds(t, u)
    ensures UserColumns(t', u) == UserColumns(t, u)
  {
    FilterCongruent(t.colOrder, OwnedBy(t.columns, u), OwnedBy(t'.columns, u));
    FilterMembers(t.colOrder, OwnedBy(t.columns, u));
    SortByCongruent(UserColumnIds(t, u), ColumnPosition(t.columns), ColumnPosition(t'.columns));
  }

  lemma InsertColumnUserColumnIds(t: Tables, col: ColumnRow, u: Id)
    requires WellFormed(t) && col.id !in t.columns
    ensures UserColumnIds(Apply(t, InsertColumn(col)), u) ==
      UserColumnIds(t, u) + (if col.userId == u then [col.id] else [])
  {
    var t' := Apply(t, InsertColumn(col));
    FilterSnoc(t.colOrder, col.id, OwnedBy(t'.columns, u));
    FilterCongruent(t.colOrder, OwnedBy(t.columns, u), OwnedBy(t'.columns, u));
  }

  /** Inserting a column of another user leaves this user's columns as they were. */
  lemma InsertColumnOtherUser(t: Tables, col: ColumnRow, u: Id)
    requires WellFormed(t) && col.id !in t.columns && col.userId != u
    ensures UserColumns(Apply(t, InsertColumn(col)), u) == UserColumns(t, u)
  {
    var t' := Apply(t, InsertColumn(col));
    InsertColumnUserColumnIds(t, col, u);
    assert UserColumnIds(t', u) == UserColumnIds(t, u);
    UserColumnsMembers(t, u);
    SortByCongruent(UserColumnIds(t, u), ColumnPosition(t.columns), ColumnPosition(t'.columns));
  }

  /** Inserting at `position = count` appends the column to its user's dense order. */
  lemma InsertColumnAtEnd(t: Tables, col: ColumnRow)
    requires WellFormed(t) && col.id !in t.columns
    requires UserColumnsDense(t, col.userId) && col.position == UserColumnCount(t, col.userId)
    ensures UserColumns(Apply(t, InsertColumn(col)), col.userId) == UserColumns(t, col.userId) + [col.id]
    ensures UserColumnsDense(Apply(t, InsertColumn(col)), col.userId)
  {
    var u := col.userId;
    var old_ := UserColumns(t, u);
    UserColumnsMembers(t, u);
    ApplyWellFormed(t, InsertColumn(col));
    DistinctSnoc(old_, col.id);
    InsertColumnAtEndMembers(t, col);
    InsertColumnAtEndPositions(t, col);
    UserColumnsIs(Apply(t, InsertColumn(col)), u, old_ + [col.id]);
  }

  /** After inserting a column, its user's columns are the old ones and the new one. */
  lemma InsertColumnAtEndMembers(t: Tables, col: ColumnRow)
    requires WellFormed(t) && col.id !in t.columns
    ensures forall id :: id in UserColumns(t, col.userId) + [col.id] <==> OwnsColumn(Apply(t, InsertColumn(col)), col.userId, id)
  {
    var t' := Apply(t, InsertColumn(col));
    assert t'.columns == t.columns[col.id := col];
    UserColumnsMembers(t, col.userId);
  }

  /** After inserting at `position = count` into a dense column list, the i-th column
      of the list followed by the new one sits at position i. */
  lemma InsertColumnAtEndPositions(t: Tables, col: ColumnRow)
    requires WellFormed(t) && col.id !in t.columns
    requires UserColumnsDense(t, col.userId) && col.position == UserColumnCount(t, col.userId)
    ensures var t' := Apply(t, InsertColumn(col));
      var o := UserColumns(t, col.userId) + [col.id];
      forall i | 0 <= i < |o| :: o[i] in t'.columns && t'.columns[o[i]].position == i
  {
    var u := col.userId;
    var t' := Apply(t, InsertColumn(col));
    assert t'.columns == t.columns[col.id := col];
    var old_ := UserColumns(t, u);
    var o := old_ + [col.id];
    UserColumnsMembers(t, u);
    forall i | 0 <= i < |o| ensures o[i] in t'.columns && t'.columns[o[i]].position == i {
      if i < |old_| {
        assert o[i] == old_[i] && old_[i] in old_;
        assert ColumnPosition(t.columns)(old_[i]) == i;
        assert OwnsColumn(t, u, old_[i]);
      } else {
        assert |old_| == |UserColumnIds(t, u)|;
      }
    }
  }

  lemma DeleteColumnUserColumnIds(t: Tables, x: Id, u: Id)
    ensures UserColumnIds(Apply(t, DeleteColumn(x)), u) == RemoveAll(UserColumnIds(t, u), x)
  {
    var t' := Apply(t, DeleteColumn(x));
    var own := OwnedBy(t.columns, u);
    var both := (y: Id) => y != x && own(y);
    FilterFilter(t.colOrder, NotEqual(x), OwnedBy(t'.columns, u), both);
    FilterFilter(t.colOrder, own, NotEqual(x), both);
  }

  /** Deleting a column removes it from its user's column order and keeps the others'
      relative order. */
  lemma DeleteColumnUserColumns(t: Tables, x: Id, u: Id)
    ensures UserColumns(Apply(t, DeleteColumn(x)), u) == RemoveAll(UserColumns(t, u), x)
  {
    var t' := Apply(t, DeleteColumn(x));
    var ids := UserColumnIds(t, u);
    DeleteColumnUserColumnIds(t, x, u);
    FilterMembers(ids, NotEqual(x));
    SortByCongruent(RemoveAll(ids, x), ColumnPosition(t.columns), ColumnPosition(t'.columns));
    SortFilter(ids, ColumnPosition(t.columns), NotEqual(x));
  }

  // ---------------------------------------------------------------------------
  // Renumbering passes

  /** `order.map((x, i) => db.update(application).set({ position: i }).where(eq(application.id, x)))`. */
  function RenumberApps(o: seq<Id>): (ss: seq<Stmt>)
    ensures |ss| == |o|
    ensures forall i | 0 <= i < |o| :: ss[i] == UpdateApp(o[i], PositionPatch(i))
    ensures OnlyAppUpdates(ss) && Targets(ss) == o
  {
    var ss := seq(|o|, i requires 0 <= i < |o| => UpdateApp(o[i], PositionPatch(i)));
    assert Targets(ss) == o;
    ss
  }

  /** Renumbering the applications `o` gives each `o[i]` position i and changes nothing else. */
  lemma RenumberAppsRows(t: Tables, o: seq<Id>)
    requires WellFormed(t) && Distinct(o)
    requires forall id | id in o :: id in t.apps
    ensures WellFormed(Run(t, RenumberApps(o)))
    ensures Run(t, RenumberApps(o)) == t.(apps := Run(t, RenumberApps(o)).apps)
    ensures Run(t, RenumberApps(o)).apps.Keys == t.apps.Keys
    ensures forall i | 0 <= i < |o| :: Run(t, RenumberApps(o)).apps[o[i]] == t.apps[o[i]].(position := i)
    ensures forall id | id in t.apps && id !in o :: Run(t, RenumberApps(o)).apps[id] == t.apps[id]
  {
    var ss := RenumberApps(o);
    var t' := Run(t, ss);
    RunWellFormed(t, ss);
    RunAppUpdates(t, ss);
    forall i | 0 <= i < |o| ensures t'.apps[o[i]] == t.apps[o[i]].(position := i) {
      assert ss[i].appId == o[i] && o[i] in o;
    }
  }

  /**
   * Renumbering exactly the applications of column `c`, in the order `o`: afterwards the
   * column query returns `o`, the column is dense, and every other column reads as before.
   */
  lemma RenumberAppsEffect(t: Tables, c: Id, o: seq<Id>)
    requires WellFormed(t) && Distinct(o)
    requires forall id :: id in o <==> id in t.apps && t.apps[id].columnId == c
    ensures ColumnOrder(Run(t, RenumberApps(o)), c) == o
    ensures ColumnDense(Run(t, RenumberApps(o)), c)
    ensures forall c' | c' != c :: ColumnOrder(Run(t, RenumberApps(o)), c') == ColumnOrder(t, c')
    ensures forall c' | c' != c :: ColumnDense(Run(t, RenumberApps(o)), c') == ColumnDense(t, c')
  {
    var t' := Run(t, RenumberApps(o));
    RenumberAppsRows(t, o);
    forall id ensures id in o <==> id in t'.apps && t'.apps[id].columnId == c {
      if id in o {
        var i :| 0 <= i < |o| && o[i] == id;
        assert t'.apps[o[i]] == t.apps[o[i]].(position := i);
      }
    }
    forall i | 0 <= i < |o| ensures o[i] in t'.apps && t'.apps[o[i]].position == i {
    }
    ColumnOrderIs(t', c, o);
    forall c' | c' != c ensures ColumnOrder(t', c') == ColumnOrder(t, c') && ColumnDense(t', c') == ColumnDense(t, c') {
      RenumberAppsOther(t, c, o, t', c');
    }
  }

  /** A column other than the renumbered one keeps its order and its positions. */
  lemma RenumberAppsOther(t: Tables, c: Id, o: seq<Id>, t': Tables, c': Id)
    requires WellFormed(t) && c' != c
    requires forall id :: id in o <==> id in t.apps && t.apps[id].columnId == c
    requires t'.appOrder == t.appOrder && t'.apps.Keys == t.apps.Keys
    requires forall id | id in t.apps && id !in o :: t'.apps[id] == t.apps[id]
    requires forall id | id in o :: t'.apps[id].columnId == c
    ensures ColumnOrder(t', c') == ColumnOrder(t, c')
    ensures ColumnDense(t', c') == ColumnDense(t, c')
  {
    ColumnOrderFrame(t, t', c');
    ColumnOrderMembers(t, c');
    var k := ColumnOrder(t, c');
    forall i | 0 <= i < |k| ensures AppPosition(t'.apps)(k[i]) == AppPosition(t.apps)(k[i]) {
      assert k[i] in t.apps && k[i] !in o;
    }
  }

  /** `columns.map((col, i) => db.update(boardColumn).set({ position: i }).where(eq(boardColumn.id, col.id)))`. */
  function RenumberColumns(o: seq<Id>): (ss: seq<Stmt>)
    ensures |ss| == |o|
    ensures forall i | 0 <= i < |o| :: ss[i] == UpdateColumn(o[i], ColumnPositionPatch(i))
    ensures OnlyColumnUpdates(ss) && ColumnTargets(ss) == o
  {
    var ss := seq(|o|, i requires 0 <= i < |o| => UpdateColumn(o[i], ColumnPositionPatch(i)));
    assert ColumnTargets(ss) == o;
    ss
  }

  /** Renumbering exactly the columns of user `u`, in the order `o`: the user's column
      query returns `o` afterwards, densely numbered, and nothing else changes. */
  lemma RenumberColumnsEffect(t: Tables, u: Id, o: seq<Id>)
    requires WellFormed(t) && Distinct(o)
    requires forall id :: id in o <==> id in t.columns && t.columns[id].userId == u
    ensures WellFormed(Run(t, RenumberColumns(o)))
    ensures Run(t, RenumberColumns(o)) == t.(columns := Run(t, RenumberColumns(o)).columns)
    ensures Run(t, RenumberColumns(o)).columns.Keys == t.columns.Keys
    ensures forall i | 0 <= i < |o| ::
      Run(t, RenumberColumns(o)).columns[o[i]] == t.columns[o[i]].(position := i)
    ensures forall id | id in t.columns && id !in o :: Run(t, RenumberColumns(o)).columns[id] == t.columns[id]
    ensures UserColumns(Run(t, RenumberColumns(o)), u) == o
    ensures UserColumnsDense(Run(t, RenumberColumns(o)), u)
    ensures forall u' | u' != u :: UserColumns(Run(t, RenumberColumns(o)), u') == UserColumns(t, u')
  {
    RenumberColumnsRows(t, u, o);
    RenumberColumnsOwners(t, u, o);
    UserColumnsIs(Run(t, RenumberColumns(o)), u, o);
    RenumberColumnsOthers(t, u, o);
  }

  /** The rows after renumbering the columns `o`: each `o[i]` at position i, every other
      row and table as before. */
  lemma RenumberColumnsRows(t: Tables, u: Id, o: seq<Id>)
    requires WellFormed(t) && Distinct(o)
    requires forall id :: id in o <==> id in t.columns && t.columns[id].userId == u
    ensures WellFormed(Run(t, RenumberColumns(o)))
    ensures Run(t, RenumberColumns(o)) == t.(columns := Run(t, RenumberColumns(o)).columns)
    ensures Run(t, RenumberColumns(o)).columns.Keys == t.columns.Keys
    ensures forall i | 0 <= i < |o| ::
      Run(t, RenumberColumns(o)).columns[o[i]] == t.columns[o[i]].(position := i)
    ensures forall id | id in t.columns && id !in o :: Run(t, RenumberColumns(o)).columns[id] == t.columns[id]
  {
    var ss := RenumberColumns(o);
    var t' := Run(t, ss);
    RunWellFormed(t, ss);
    RunColumnUpdates(t, ss);
    forall i | 0 <= i < |o| ensures t'.columns[o[i]] == t.columns[o[i]].(position := i) {
      assert ss[i].columnId == o[i] && o[i] in o;
    }
  }

  /** After renumbering the columns `o` of user `u`, the user owns exactly `o`, each
      `o[i]` at position i. */
  lemma RenumberColumnsOwners(t: Tables, u: Id, o: seq<Id>)
    requires WellFormed(t) && Distinct(o)
    requires forall id :: id in o <==> id in t.columns && t.columns[id].userId == u
    ensures var t' := Run(t, RenumberColumns(o));
      && (forall id :: id in o <==> OwnsColumn(t', u, id))
      && (forall i | 0 <= i < |o| :: o[i] in t'.columns && t'.columns[o[i]].position == i)
  {
    var t' := Run(t, RenumberColumns(o));
    RenumberColumnsRows(t, u, o);
    forall id ensures id in o <==> OwnsColumn(t', u, id) {
      if id in o {
        var i :| 0 <= i < |o| && o[i] == id;
        assert t'.columns[id].userId == t.columns[id].userId;
      } else if id in t.columns {
        assert t'.columns[id] == t.columns[id];
      }
    }
    forall i | 0 <= i < |o| ensures o[i] in t'.columns && t'.columns[o[i]].position == i {
      assert o[i] in o;
    }
  }

  /** Renumbering the columns of user `u` leaves every other user's column list. */
  lemma RenumberColumnsOthers(t: Tables, u: Id, o: seq<Id>)
    requires WellFormed(t) && Distinct(o)
    requires forall id :: id in o <==> id in t.columns && t.columns[id].userId == u
    ensures forall u' | u' != u :: UserColumns(Run(t, RenumberColumns(o)), u') == UserColumns(t, u')
  {
    var t' := Run(t, RenumberColumns(o));
    RenumberColumnsRows(t, u, o);
    forall u' | u' != u ensures UserColumns(t', u') == UserColumns(t, u') {
      forall id | id in t.columns && (t.columns[id].userId == u' || t'.columns[id].userId == u')
        ensures t'.columns[id].userId == t.columns[id].userId && t'.columns[id].position == t.columns[id].position
      {
      }
      UserColumnsFrame(t, t', u');
    }
  }

  // ---------------------------------------------------------------------------
  // The store object

  /** The database: the four tables, written one statement at a time. */
  class Board {
    var columns: map<Id, ColumnRow>
    var colOrder: seq<Id>
    var apps: map<Id, AppRow>
    var appOrder: seq<Id>
    var contacts: seq<ContactRow>
    var transitions: seq<TransitionRow>

    function Snapshot(): Tables
      reads this
    {
      Tables(columns, colOrder, apps, appOrder, contacts, transitions)
    }

    ghost predicate Valid()
      reads this
    {
      WellFormed(Snapshot())
    }

    /** An empty database. */
    constructor ()
      ensures Snapshot() == EmptyTables
      ensures Valid()
    {
      columns, colOrder := map[], [];
      apps, appOrder := map[], [];
      contacts, transitions := [], [];
    }

    /** Execute one statement. */
    method Exec(s: Stmt)
      modifies this
      ensures Snapshot() == Apply(old(Snapshot()), s)
    {
      match s
      case InsertColumn(c) =>
        if c.id !in columns {
          columns := columns[c.id := c];
          colOrder := colOrder + [c.id];
        }
      case UpdateColumn(id, p) =>
        if id in columns {
          columns := columns[id := ApplyColumnPatch(columns[id], p)];
        }
      case DeleteColumn(id) =>
        columns := columns - {id};
        colOrder := RemoveAll(colOrder, id);
      case InsertApp(a) =>
        if a.id !in apps {
          apps := apps[a.id := a];
          appOrder := appOrder + [a.id];
        }
      case UpdateApp(id, p) =>
        if id in apps {
          apps := apps[id := ApplyAppPatch(apps[id], p)];
        }
      case DeleteApp(id) =>
        apps := apps - {id};
        appOrder := RemoveAll(appOrder, id);
        contacts := CascadeContacts(contacts, id);
        transitions := CascadeTransitions(transitions, id);
      case InsertTransition(tr) =>
        transitions := transitions + [tr];
    }

    /** `db.batch(ss)`: each statement in turn; a later one sees the earlier ones' writes. */
    method Batch(ss: seq<Stmt>)
      modifies this
      ensures Snapshot() == Run(old(Snapshot()), ss)
      ensures old(Valid()) ==> Valid()
    {
      var i := 0;
      while i < |ss|
        invariant 0 <= i <= |ss|
        invariant Snapshot() == Run(old(Snapshot()), ss[..i])
      {
        assert ss[..i + 1][..i] == ss[..i];
        Exec(ss[i]);
        i := i + 1;
      }
      assert ss[..|ss|] == ss;
      if old(Valid()) {
        RunWellFormed(old(Snapshot()), ss);
      }
    }
  }
}
