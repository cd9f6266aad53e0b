/**
 * The kanban column route (`dashboard.columns`): create, rename or recolor, delete
 * with reassignment of the column's applications, and reorder. Each handler checks the
 * form and the ownership of the rows it names, and only then writes.
 */
module Columns {
  import opened Wrappers
  import opened JsText
  import opened Ordering
  import opened Schema
  import opened Store
  import opened Forms
  import Applications

  /** Every user's columns are numbered 0, 1, ..., k - 1 in position order. */
  ghost predicate ColumnsDense(t: Tables) {
    forall u :: UserColumnsDense(t, u)
  }

  // ---------------------------------------------------------------------------
  // create

  /** The first check of `handleCreate` that the request fails. */
  function CreateRejection(f: Form): Option<Response> {
    if !NonBlankText(f, Name) then Some(Rejected(400, NameRequired))
    else if !NonBlankText(f, Color) then Some(Rejected(400, ColorRequired))
    else None
  }

  /** The row `handleCreate` inserts: trimmed name and color, after the user's last column. */
  function CreatedColumn(t: Tables, userId: Id, f: Form, now: int, columnId: Id): ColumnRow
    requires CreateRejection(f).None?
  {
    ColumnRow(columnId, userId, Trim(TextOf(f, Name).value), Trim(TextOf(f, Color).value),
              UserColumnCount(t, userId), now, now)
  }

  /** A create passes exactly when both name and color are strings that are not blank. */
  lemma CreateRejectionMeaning(f: Form)
    ensures CreateRejection(f).None? <==>
      (Name in f && f[Name].Text? && !IsBlank(f[Name].text))
      && (Color in f && f[Color].Text? && !IsBlank(f[Color].text))
    ensures CreateRejection(f).Some? ==> CreateRejection(f).value.status == 400
  {
    NonBlankTextMeaning(f, Name);
    NonBlankTextMeaning(f, Color);
  }

  /** An accepted create adds one column row holding the trimmed, non-empty name and
      color; on a dense board the new column is the user's last one, and the other users'
      columns read as before. */
  lemma CreateEffect(t: Tables, userId: Id, f: Form, now: int, columnId: Id)
    requires WellFormed(t) && columnId !in t.columns && CreateRejection(f).None?
    ensures var row := CreatedColumn(t, userId, f, now, columnId);
      var t' := Apply(t, InsertColumn(row));
      && WellFormed(t')
      && t' == t.(columns := t.columns[columnId := row], colOrder := t.colOrder + [columnId])
      && row.userId == userId && row.createdAt == now && row.updatedAt == now
      && row.name == Trim(TextOf(f, Name).value) && row.name != []
      && row.color == Trim(TextOf(f, Color).value) && row.color != []
      && row.position == UserColumnCount(t, userId)
      && (UserColumnsDense(t, userId) ==>
            UserColumns(t', userId) == UserColumns(t, userId) + [columnId] && UserColumnsDense(t', userId))
      && (forall u | u != userId :: UserColumns(t', u) == UserColumns(t, u) && UserColumnsDense(t', u) == UserColumnsDense(t, u))
  {
    var row := CreatedColumn(t, userId, f, now, columnId);
    var t' := t.(columns := t.columns[columnId := row], colOrder := t.colOrder + [columnId]);
    assert t' == Apply(t, InsertColumn(row));
    ApplyWellFormed(t, InsertColumn(row));
    if UserColumnsDense(t, userId) {
      InsertColumnAtEnd(t, row);
    }
    forall u | u != userId ensures UserColumns(t', u) == UserColumns(t, u) && UserColumnsDense(t', u) == UserColumnsDense(t, u) {
      InsertColumnOtherUser(t, row, u);
      UserColumnsDenseFrame(t, t', u);
    }
  }

  /** Adding a fresh column row touches no application and keeps every existing column,
      so the application invariants carry over. */
  lemma InsertColumnFrame(t: Tables, t': Tables, columnId: Id, row: ColumnRow)
    requires columnId !in t.columns
    requires t' == t.(columns := t.columns[columnId := row], colOrder := t.colOrder + [columnId])
    ensures BoardDense(t) ==> BoardDense(t')
    ensures ColumnsReferenced(t) ==> ColumnsReferenced(t')
    ensures ColumnsOwned(t) ==> ColumnsOwned(t')
    ensures Applications.SalariesOrdered(t) ==> Applications.SalariesOrdered(t')
  {
    AppsFrame(t, t');
    if ColumnsOwned(t) {
      forall x | x in t'.apps ensures OwnsColumn(t', t'.apps[x].userId, t'.apps[x].columnId) {
        assert OwnsColumn(t, t.apps[x].userId, t.apps[x].columnId);
      }
    }
  }

  /** Inserting a column adds no application and removes no column. */
  lemma CreateInvariants(t: Tables, userId: Id, f: Form, now: int, columnId: Id)
    requires WellFormed(t) && columnId !in t.columns && CreateRejection(f).None?
    ensures var t' := Apply(t, InsertColumn(CreatedColumn(t, userId, f, now, columnId)));
      && (ColumnsDense(t) ==> ColumnsDense(t'))
      && (BoardDense(t) ==> BoardDense(t'))
      && (ColumnsReferenced(t) ==> ColumnsReferenced(t'))
      && (ColumnsOwned(t) ==> ColumnsOwned(t'))
      && (Applications.SalariesOrdered(t) ==> Applications.SalariesOrdered(t'))
  {
    var row := CreatedColumn(t, userId, f, now, columnId);
    var t' := Apply(t, InsertColumn(row));
    CreateEffect(t, userId, f, now, columnId);
    InsertColumnFrame(t, t', columnId, row);
    if ColumnsDense(t) {
      forall u ensures UserColumnsDense(t', u) {
        assert UserColumnsDense(t, u);
      }
    }
  }

  /** `handleCreate`. */
  method HandleCreate(db: Board, userId: Id, f: Form, now: int, columnId: Id) returns (r: Response)
    requires db.Valid() && columnId !in db.columns
    modifies db
    ensures db.Valid()
    ensures CreateRejection(f).Some? ==>
      r == CreateRejection(f).value && db.Snapshot() == old(db.Snapshot())
    ensures CreateRejection(f).None? ==>
      r == Created(columnId)
      && db.Snapshot() == Apply(old(db.Snapshot()), InsertColumn(CreatedColumn(old(db.Snapshot()), userId, f, now, columnId)))
    ensures old(ColumnsDense(db.Snapshot())) ==> ColumnsDense(db.Snapshot())
    ensures old(BoardDense(db.Snapshot())) ==> BoardDense(db.Snapshot())
    ensures old(ColumnsReferenced(db.Snapshot())) ==> ColumnsReferenced(db.Snapshot())
    ensures old(ColumnsOwned(db.Snapshot())) ==> ColumnsOwned(db.Snapshot())
    ensures old(Applications.SalariesOrdered(db.Snapshot())) ==> Applications.SalariesOrdered(db.Snapshot())
  {
    var name := TextOf(f, Name);
    var color := TextOf(f, Color);
    if name.None? || Trim(name.value) == [] {
      return Rejected(400, NameRequired);
    }
    if color.None? || Trim(color.value) == [] {
      return Rejected(400, ColorRequired);
    }
    var t0 := db.Snapshot();
    var position := UserColumnCount(t0, userId);
    var row := ColumnRow(columnId, userId, Trim(name.value), Trim(color.value), position, now, now);
    assert row == CreatedColumn(t0, userId, f, now, columnId);
    CreateEffect(t0, userId, f, now, columnId);
    CreateInvariants(t0, userId, f, now, columnId);
    db.Exec(InsertColumn(row));
    r := Created(columnId);
  }

  // ---------------------------------------------------------------------------
  // update

  /** The first check of `handleUpdate` that the request fails: ownership is checked
      before the fields, and only the fields the form has. */
  function UpdateRejection(t: Tables, userId: Id, f: Form): Option<Response> {
    if TextOf(f, ColumnId).None? then Some(Rejected(400, ColumnIdRequired))
    else if !OwnsColumn(t, userId, TextOf(f, ColumnId).value) then Some(Rejected(404, ColumnNotFound))
    else if Name in f && !NonBlankText(f, Name) then Some(Rejected(400, NameEmpty))
    else if Color in f && !NonBlankText(f, Color) then Some(Rejected(400, ColorEmpty))
    else None
  }

  /** The `updates` object: `updatedAt`, and the trimmed name and color where given. */
  function UpdatePatch(f: Form, now: int): ColumnPatch {
    ColumnPatch(TrimmedOrNull(f, Name), TrimmedOrNull(f, Color), None, Some(now))
  }

  /** An accepted update writes the name exactly when the form has one, and the color
      likewise, always trimmed and not empty; it never writes the position. */
  lemma AcceptedUpdatePatch(t: Tables, userId: Id, f: Form, now: int)
    requires UpdateRejection(t, userId, f).None?
    ensures var p := UpdatePatch(f, now);
      && (p.name.Some? <==> Name in f)
      && (p.name.Some? ==> p.name.value == Trim(TextOf(f, Name).value) && p.name.value != [])
      && (p.color.Some? <==> Color in f)
      && (p.color.Some? ==> p.color.value == Trim(TextOf(f, Color).value) && p.color.value != [])
      && p.position.None? && p.updatedAt == Some(now)
  {
  }

  /** An update that leaves the position alone changes one row in place and keeps every
      user's column order and numbering. */
  lemma UpdateEffect(t: Tables, id: Id, p: ColumnPatch)
    requires WellFormed(t) && id in t.columns && p.position.None?
    ensures var t' := Apply(t, UpdateColumn(id, p));
      && WellFormed(t')
      && t' == t.(columns := t.columns[id := ApplyColumnPatch(t.columns[id], p)])
      && (forall u :: UserColumns(t', u) == UserColumns(t, u) && UserColumnsDense(t', u) == UserColumnsDense(t, u))
  {
    var t' := t.(columns := t.columns[id := ApplyColumnPatch(t.columns[id], p)]);
    assert t' == Apply(t, UpdateColumn(id, p));
    ApplyWellFormed(t, UpdateColumn(id, p));
    forall u ensures UserColumns(t', u) == UserColumns(t, u) && UserColumnsDense(t', u) == UserColumnsDense(t, u) {
      UserColumnsFrame(t, t', u);
      UserColumnsDenseFrame(t, t', u);
    }
  }

  /** An update of a column row keeps the four invariants. */
  lemma UpdateInvariants(t: Tables, id: Id, p: ColumnPatch)
    requires WellFormed(t) && id in t.columns && p.position.None?
    ensures var t' := Apply(t, UpdateColumn(id, p));
      && (ColumnsDense(t) ==> ColumnsDense(t'))
      && (BoardDense(t) ==> BoardDense(t'))
      && (ColumnsReferenced(t) ==> ColumnsReferenced(t'))
      && (ColumnsOwned(t) ==> ColumnsOwned(t'))
      && (Applications.SalariesOrdered(t) ==> Applications.SalariesOrdered(t'))
  {
    var t' := Apply(t, UpdateColumn(id, p));
    UpdateEffect(t, id, p);
    AppsFrame(t, t');
    if ColumnsDense(t) {
      forall u ensures UserColumnsDense(t', u) {
        assert UserColumnsDense(t, u);
      }
    }
  }

  /** `handleUpdate`. */
  method HandleUpdate(db: Board, userId: Id, f: Form, now: int) returns (r: Response)
    requires db.Valid()
    modifies db
    ensures db.Valid()
    ensures UpdateRejection(old(db.Snapshot()), userId, f).Some? ==>
      r == UpdateRejection(old(db.Snapshot()), userId, f).value && db.Snapshot() == old(db.Snapshot())
    ensures UpdateRejection(old(db.Snapshot()), userId, f).None? ==>
      r == Ok
      && db.Snapshot() == Apply(old(db.Snapshot()), UpdateColumn(TextOf(f, ColumnId).value, UpdatePatch(f, now)))
    ensures old(ColumnsDense(db.Snapshot())) ==> ColumnsDense(db.Snapshot())
    ensures old(BoardDense(db.Snapshot())) ==> BoardDense(db.Snapshot())
    ensures old(ColumnsReferenced(db.Snapshot())) ==> ColumnsReferenced(db.Snapshot())
    ensures old(ColumnsOwned(db.Snapshot())) ==> ColumnsOwned(db.Snapshot())
    ensures old(Applications.SalariesOrdered(db.Snapshot())) ==> Applications.SalariesOrdered(db.Snapshot())
  {
    var columnId := TextOf(f, ColumnId);
    if columnId.None? {
      return Rejected(400, ColumnIdRequired);
    }
    var id := columnId.value;
    if !(id in db.columns && db.columns[id].userId == userId) {
      return Rejected(404, ColumnNotFound);
    }
    var err, name := Applications.ReadTextUpdate(f, Name, NameEmpty);
    if err.Some? {
      return err.value;
    }
    var color;
    err, color := Applications.ReadTextUpdate(f, Color, ColorEmpty);
    if err.Some? {
      return err.value;
    }
    var updates := ColumnPatch(name, color, None, Some(now));
    assert updates == UpdatePatch(f, now);
    UpdateEffect(db.Snapshot(), id, updates);
    UpdateInvariants(db.Snapshot(), id, updates);
    db.Exec(UpdateColumn(id, updates));
    r := Ok;
  }

  // ---------------------------------------------------------------------------
  // delete

  /** The first check of `handleDelete` that the request fails; the destination is read
      only when the column holds applications. */
  function DeleteRejection(t: Tables, userId: Id, f: Form): Option<Response> {
    if TextOf(f, ColumnId).None? then Some(Rejected(400, ColumnIdRequired))
    else if !OwnsColumn(t, userId, TextOf(f, ColumnId).value) then Some(Rejected(404, ColumnNotFound))
    else if AppCount(t, TextOf(f, ColumnId).value) > 0 && TextOf(f, DestinationColumnId).None? then
      Some(Rejected(400, DestinationRequired))
    else if AppCount(t, TextOf(f, ColumnId).value) > 0 && !OwnsColumn(t, userId, TextOf(f, DestinationColumnId).value) then
      Some(Rejected(404, DestinationNotFound))
    else None
  }

  /** `appsToMove.map((app, i) => db.update(application).set({ columnId: dest, position: base + i, updatedAt: now }))`. */
  function ReassignApps(m: seq<Id>, dest: Id, base: int, now: int): (ss: seq<Stmt>)
    ensures |ss| == |m|
    ensures forall i | 0 <= i < |m| :: ss[i] == UpdateApp(m[i], MovePatch(dest, base + i, now))
    ensures OnlyAppUpdates(ss) && Targets(ss) == m
  {
    var ss := seq(|m|, i requires 0 <= i < |m| => UpdateApp(m[i], MovePatch(dest, base + i, now)));
    assert Targets(ss) == m;
    ss
  }

  /** The database after the UPDATEs that move the applications of `col`, in position
      order, behind the applications already in `dest`. */
  function Reassigned(t0: Tables, col: Id, dest: Id, now: int): Tables {
    Run(t0, ReassignApps(ColumnOrder(t0, col), dest, AppCount(t0, dest), now))
  }

  /** The database after `handleDelete` of the column `col` of `userId`: the reassigning
      UPDATEs (none when the column is empty), the DELETE, and the renumbering of the
      user's remaining columns. */
  function DeleteResult(t0: Tables, userId: Id, col: Id, dest: Id, now: int): Tables {
    var t2 := Apply(Reassigned(t0, col, dest, now), DeleteColumn(col));
    Run(t2, RenumberColumns(UserColumns(t2, userId)))
  }

  /** The reassigning UPDATEs address each application of `col` once, change only the
      application table, and leave every row outside `col` as it was. */
  lemma ReassignFrame(t0: Tables, col: Id, dest: Id, now: int)
    requires WellFormed(t0)
    ensures var m := ColumnOrder(t0, col);
      var t1 := Reassigned(t0, col, dest, now);
      && WellFormed(t1)
      && t1 == t0.(apps := t1.apps) && t1.apps.Keys == t0.apps.Keys
      && Distinct(m)
      && (forall x :: x in m <==> x in t0.apps && t0.apps[x].columnId == col)
      && (forall i | 0 <= i < |m| :: m[i] in t0.apps)
      && (forall x | x in t0.apps && x !in m :: t1.apps[x] == t0.apps[x])
  {
    var m := ColumnOrder(t0, col);
    var ss := ReassignApps(m, dest, AppCount(t0, dest), now);
    ColumnOrderMembers(t0, col);
    RunWellFormed(t0, ss);
    RunAppUpdates(t0, ss);
    forall i | 0 <= i < |m| ensures m[i] in t0.apps {
      assert m[i] in m;
    }
  }

  /** The i-th application of `col` in position order moves to `dest` at position
      `base + i`, stamped `now`. */
  lemma ReassignMoved(t0: Tables, col: Id, dest: Id, now: int)
    requires WellFormed(t0)
    ensures var m := ColumnOrder(t0, col);
      var t1 := Reassigned(t0, col, dest, now);
      && (forall i | 0 <= i < |m| :: m[i] in t0.apps && m[i] in t1.apps)
      && (forall i | 0 <= i < |m| ::
            t1.apps[m[i]] == t0.apps[m[i]].(columnId := dest, position := AppCount(t0, dest) + i, updatedAt := now))
  {
    var m := ColumnOrder(t0, col);
    var base := AppCount(t0, dest);
    var ss := ReassignApps(m, dest, base, now);
    ReassignFrame(t0, col, dest, now);
    RunAppUpdates(t0, ss);
    var t1 := Run(t0, ss);
    forall i | 0 <= i < |m|
      ensures t1.apps[m[i]] == t0.apps[m[i]].(columnId := dest, position := base + i, updatedAt := now)
    {
      assert ss[i].appId == m[i];
      MovePatchApply(t0.apps[m[i]], dest, base + i, now);
    }
  }

  /** The rows after the reassigning UPDATEs: the i-th application of `col` in position
      order is in `dest` at position `base + i`, stamped `now`; every other row is as it was. */
  lemma ReassignRows(t0: Tables, col: Id, dest: Id, now: int)
    requires WellFormed(t0)
    ensures var m := ColumnOrder(t0, col);
      var t1 := Reassigned(t0, col, dest, now);
      && WellFormed(t1)
      && t1 == t0.(apps := t1.apps) && t1.apps.Keys == t0.apps.Keys
      && Distinct(m)
      && (forall x :: x in m <==> x in t0.apps && t0.apps[x].columnId == col)
      && (forall i | 0 <= i < |m| :: m[i] in t0.apps)
      && (forall i | 0 <= i < |m| ::
            t1.apps[m[i]] == t0.apps[m[i]].(columnId := dest, position := AppCount(t0, dest) + i, updatedAt := now))
      && (forall x | x in t0.apps && x !in m :: t1.apps[x] == t0.apps[x])
  {
    ReassignFrame(t0, col, dest, now);
    ReassignMoved(t0, col, dest, now);
  }

  /** After the reassigning UPDATEs every application of `col` is in `dest`, and every
      other application is unchanged. */
  lemma ReassignColumnOf(t0: Tables, col: Id, dest: Id, now: int)
    requires WellFormed(t0)
    ensures var t1 := Reassigned(t0, col, dest, now);
      && t1.apps.Keys == t0.apps.Keys
      && (forall x | x in t0.apps && t0.apps[x].columnId == col :: t1.apps[x].columnId == dest)
      && (forall x | x in t0.apps && t0.apps[x].columnId != col :: t1.apps[x] == t0.apps[x])
  {
    var m := ColumnOrder(t0, col);
    var t1 := Reassigned(t0, col, dest, now);
    ReassignRows(t0, col, dest, now);
    forall x | x in t0.apps && t0.apps[x].columnId == col ensures t1.apps[x].columnId == dest {
      var i := IndexOf(m, x);
      assert t1.apps[m[i]] == t0.apps[m[i]].(columnId := dest, position := AppCount(t0, dest) + i, updatedAt := now);
    }
  }

  /** After the reassigning UPDATEs the deleted column holds no application. */
  lemma ReassignSource(t0: Tables, col: Id, dest: Id, now: int)
    requires WellFormed(t0) && col != dest
    ensures ColumnOrder(Reassigned(t0, col, dest, now), col) == []
  {
    var t1 := Reassigned(t0, col, dest, now);
    ReassignRows(t0, col, dest, now);
    ReassignColumnOf(t0, col, dest, now);
    ColumnOrderIs(t1, col, []);
  }

  /** On a dense destination, the applications already there keep positions 0 .. n - 1. */
  lemma ReassignDestKept(t0: Tables, col: Id, dest: Id, now: int)
    requires WellFormed(t0) && col != dest && ColumnDense(t0, dest)
    ensures var t1 := Reassigned(t0, col, dest, now);
      var d := ColumnOrder(t0, dest);
      forall i | 0 <= i < |d| :: d[i] in t1.apps && t1.apps[d[i]].position == i
  {
    var t1 := Reassigned(t0, col, dest, now);
    var d := ColumnOrder(t0, dest);
    ReassignColumnOf(t0, col, dest, now);
    ColumnOrderMembers(t0, dest);
    forall i | 0 <= i < |d| ensures d[i] in t1.apps && t1.apps[d[i]].position == i {
      assert d[i] in d;
      assert AppPosition(t0.apps)(d[i]) == i;
    }
  }

  /** On a dense destination, the existing applications keep positions 0 .. n - 1 and the
      moved ones take n, n + 1, ... */
  lemma ReassignDestPositions(t0: Tables, col: Id, dest: Id, now: int)
    requires WellFormed(t0) && col != dest && ColumnDense(t0, dest)
    ensures var t1 := Reassigned(t0, col, dest, now);
      var o := ColumnOrder(t0, dest) + ColumnOrder(t0, col);
      forall i | 0 <= i < |o| :: o[i] in t1.apps && t1.apps[o[i]].position == i
  {
    var t1 := Reassigned(t0, col, dest, now);
    var d := ColumnOrder(t0, dest);
    ReassignDestKept(t0, col, dest, now);
    ReassignMoved(t0, col, dest, now);
    assert AppCount(t0, dest) == |d|;
    NumberedAppend(t1.apps, d, ColumnOrder(t0, col));
  }

  /** Rows numbered 0 .. n - 1 followed by rows numbered n, n + 1, ... are numbered along
      the concatenation. */
  lemma NumberedAppend(apps: map<Id, AppRow>, d: seq<Id>, m: seq<Id>)
    requires forall i | 0 <= i < |d| :: d[i] in apps && apps[d[i]].position == i
    requires forall j | 0 <= j < |m| :: m[j] in apps && apps[m[j]].position == |d| + j
    ensures forall i | 0 <= i < |d + m| :: (d + m)[i] in apps && apps[(d + m)[i]].position == i
  {
    forall i | 0 <= i < |d + m| ensures (d + m)[i] in apps && apps[(d + m)[i]].position == i {
      if i >= |d| {
        assert (d + m)[i] == m[i - |d|];
      }
    }
  }

  /** On a dense destination the moved applications follow the existing ones, and the
      destination stays dense. */
  lemma ReassignDest(t0: Tables, col: Id, dest: Id, now: int)
    requires WellFormed(t0) && col != dest && ColumnDense(t0, dest)
    ensures ColumnOrder(Reassigned(t0, col, dest, now), dest) == ColumnOrder(t0, dest) + ColumnOrder(t0, col)
    ensures ColumnDense(Reassigned(t0, col, dest, now), dest)
  {
    var t1 := Reassigned(t0, col, dest, now);
    var d := ColumnOrder(t0, dest);
    var m := ColumnOrder(t0, col);
    var o := d + m;
    ReassignFrame(t0, col, dest, now);
    ReassignColumnOf(t0, col, dest, now);
    ReassignDestPositions(t0, col, dest, now);
    ColumnOrderMembers(t0, dest);
    DistinctConcat(d, m);
    forall x ensures x in o <==> x in t1.apps && t1.apps[x].columnId == dest {
      assert x in o <==> x in d || x in m;
    }
    ColumnOrderIs(t1, dest, o);
  }

  /** A column other than the deleted one and the destination reads as before. */
  lemma ReassignOther(t0: Tables, col: Id, dest: Id, now: int, c: Id)
    requires WellFormed(t0) && c != col && c != dest
    ensures ColumnOrder(Reassigned(t0, col, dest, now), c) == ColumnOrder(t0, c)
    ensures ColumnDense(Reassigned(t0, col, dest, now), c) == ColumnDense(t0, c)
  {
    ReassignRows(t0, col, dest, now);
    ReassignColumnOf(t0, col, dest, now);
    ColumnUntouched(t0, Reassigned(t0, col, dest, now), c);
  }

  /** A column with no application makes the reassignment a no-op. */
  lemma ReassignNothing(t0: Tables, col: Id, dest: Id, now: int)
    requires AppCount(t0, col) == 0
    ensures Reassigned(t0, col, dest, now) == t0
  {
    assert ReassignApps(ColumnOrder(t0, col), dest, AppCount(t0, dest), now) == [];
  }

  /** The DELETE of `handleDelete` leaves the application table of the reassignment and
      takes the column out of every user's column list. */
  lemma DeleteStep(t0: Tables, userId: Id, col: Id, dest: Id, now: int)
    requires WellFormed(t0)
    ensures var t1 := Reassigned(t0, col, dest, now);
      var t2 := t1.(columns := t0.columns - {col}, colOrder := RemoveAll(t0.colOrder, col));
      && WellFormed(t2)
      && DeleteResult(t0, userId, col, dest, now) == Run(t2, RenumberColumns(UserColumns(t2, userId)))
      && (forall u :: UserColumns(t2, u) == RemoveAll(UserColumns(t0, u), col))
  {
    var t1 := Reassigned(t0, col, dest, now);
    ReassignFrame(t0, col, dest, now);
    var t2 := t1.(columns := t0.columns - {col}, colOrder := RemoveAll(t0.colOrder, col));
    ApplyDeleteColumn(t1, col);
    assert t2 == Apply(t1, DeleteColumn(col));
    ApplyWellFormed(t1, DeleteColumn(col));
    forall u ensures UserColumns(t2, u) == RemoveAll(UserColumns(t0, u), col) {
      DeleteColumnUserColumns(t1, col, u);
      assert UserColumns(t1, u) == UserColumns(t0, u);
    }
  }

  /** The column rows after `handleDelete`: the column is gone, and the rest change at most
      their position, only for the user's own columns. */
  lemma DeleteColumnRows(t0: Tables, userId: Id, col: Id, dest: Id, now: int)
    requires WellFormed(t0) && OwnsColumn(t0, userId, col)
    ensures var t := DeleteResult(t0, userId, col, dest, now);
      && WellFormed(t)
      && t.columns.Keys == t0.columns.Keys - {col}
      && t.colOrder == RemoveAll(t0.colOrder, col)
      && (forall c | c in t.columns :: t.columns[c] == t0.columns[c].(position := t.columns[c].position))
      && (forall c | c in t.columns && t0.columns[c].userId != userId :: t.columns[c] == t0.columns[c])
  {
    var t1 := Reassigned(t0, col, dest, now);
    ReassignFrame(t0, col, dest, now);
    var t2 := t1.(columns := t0.columns - {col}, colOrder := RemoveAll(t0.colOrder, col));
    DeleteStep(t0, userId, col, dest, now);
    var o := UserColumns(t2, userId);
    UserColumnsMembers(t2, userId);
    RenumberColumnsEffect(t2, userId, o);
    var t := Run(t2, RenumberColumns(o));
    forall c | c in t.columns ensures t.columns[c] == t0.columns[c].(position := t.columns[c].position) {
      if c in o {
        var i := IndexOf(o, c);
      }
    }
    forall c | c in t.columns && t0.columns[c].userId != userId ensures t.columns[c] == t0.columns[c] {
      assert c !in o;
    }
  }

  /** The column lists after `handleDelete`: the user's remaining columns keep their order
      and are renumbered 0, 1, ...; other users' columns read as before. */
  lemma DeleteColumnOrders(t0: Tables, userId: Id, col: Id, dest: Id, now: int)
    requires WellFormed(t0) && OwnsColumn(t0, userId, col)
    ensures var t := DeleteResult(t0, userId, col, dest, now);
      && UserColumns(t, userId) == RemoveAll(UserColumns(t0, userId), col)
      && UserColumnsDense(t, userId)
      && (forall u | u != userId :: UserColumns(t, u) == UserColumns(t0, u) && UserColumnsDense(t, u) == UserColumnsDense(t0, u))
  {
    var t1 := Reassigned(t0, col, dest, now);
    var t2 := t1.(columns := t0.columns - {col}, colOrder := RemoveAll(t0.colOrder, col));
    DeleteStep(t0, userId, col, dest, now);
    var o := UserColumns(t2, userId);
    UserColumnsMembers(t2, userId);
    RenumberColumnsEffect(t2, userId, o);
    var t := Run(t2, RenumberColumns(o));
    DeleteColumnRows(t0, userId, col, dest, now);
    forall u | u != userId ensures UserColumns(t, u) == UserColumns(t0, u) && UserColumnsDense(t, u) == UserColumnsDense(t0, u) {
      UserColumnsMembers(t0, u);
      RemoveAllAbsent(UserColumns(t0, u), col);
      forall id | OwnsColumn(t0, u, id) ensures id in t.columns && t.columns[id].position == t0.columns[id].position {
        assert id != col;
      }
      UserColumnsDenseFrame(t0, t, u);
    }
  }

  /** Neither the DELETE nor the renumbering touches applications, contacts or
      transitions: those are what the reassignment left. */
  lemma DeleteKeepsApps(t0: Tables, userId: Id, col: Id, dest: Id, now: int)
    requires WellFormed(t0)
    ensures var t := DeleteResult(t0, userId, col, dest, now);
      var t1 := Reassigned(t0, col, dest, now);
      && t.apps == t1.apps && t.appOrder == t0.appOrder
      && t.contacts == t0.contacts && t.transitions == t0.transitions
  {
    var t1 := Reassigned(t0, col, dest, now);
    ReassignFrame(t0, col, dest, now);
    var t2 := t1.(columns := t0.columns - {col}, colOrder := RemoveAll(t0.colOrder, col));
    DeleteStep(t0, userId, col, dest, now);
    UserColumnsMembers(t2, userId);
    RenumberColumnsEffect(t2, userId, UserColumns(t2, userId));
  }

  /** The application rows after `handleDelete`: the i-th application of `col` in position
      order sits in `dest` at position `AppCount(dest) + i`, stamped `now`; every
      application of another column is as it was. */
  lemma DeleteAppRows(t0: Tables, userId: Id, col: Id, dest: Id, now: int)
    requires WellFormed(t0)
    ensures var t := DeleteResult(t0, userId, col, dest, now);
      var m := ColumnOrder(t0, col);
      && t.apps.Keys == t0.apps.Keys && t.appOrder == t0.appOrder
      && t.contacts == t0.contacts && t.transitions == t0.transitions
      && (forall i | 0 <= i < |m| :: m[i] in t0.apps)
      && (forall i | 0 <= i < |m| ::
            t.apps[m[i]] == t0.apps[m[i]].(columnId := dest, position := AppCount(t0, dest) + i, updatedAt := now))
      && (forall x | x in t0.apps && t0.apps[x].columnId != col :: t.apps[x] == t0.apps[x])
  {
    DeleteKeepsApps(t0, userId, col, dest, now);
    ReassignRows(t0, col, dest, now);
    ReassignColumnOf(t0, col, dest, now);
  }

  /** The columns' application lists after `handleDelete`: the deleted column is empty,
      a dense destination holds its applications followed by the moved ones and stays
      dense, and every other column reads as before. */
  lemma DeleteAppOrders(t0: Tables, userId: Id, col: Id, dest: Id, now: int)
    requires WellFormed(t0) && (AppCount(t0, col) > 0 ==> dest != col)
    ensures var t := DeleteResult(t0, userId, col, dest, now);
      && ColumnOrder(t, col) == []
      && (dest != col && ColumnDense(t0, dest) ==>
            ColumnOrder(t, dest) == ColumnOrder(t0, dest) + ColumnOrder(t0, col) && ColumnDense(t, dest))
      && (forall c | c != col && c != dest :: ColumnOrder(t, c) == ColumnOrder(t0, c) && ColumnDense(t, c) == ColumnDense(t0, c))
  {
    var t := DeleteResult(t0, userId, col, dest, now);
    var t1 := Reassigned(t0, col, dest, now);
    DeleteKeepsApps(t0, userId, col, dest, now);
    ReassignFrame(t0, col, dest, now);
    AppsFrame(t1, t);
    if AppCount(t0, col) == 0 {
      ReassignNothing(t0, col, dest, now);
      assert ColumnOrder(t0, col) == [];
    } else {
      ReassignSource(t0, col, dest, now);
    }
    if dest != col && ColumnDense(t0, dest) {
      ReassignDest(t0, col, dest, now);
    }
    forall c | c != col && c != dest ensures ColumnOrder(t, c) == ColumnOrder(t0, c) && ColumnDense(t, c) == ColumnDense(t0, c) {
      ReassignOther(t0, col, dest, now, c);
    }
  }

  /** `handleDelete` keeps every user's columns numbered 0, 1, ... */
  lemma DeleteKeepsColumnsDense(t0: Tables, userId: Id, col: Id, dest: Id, now: int)
    requires WellFormed(t0) && OwnsColumn(t0, userId, col) && ColumnsDense(t0)
    ensures ColumnsDense(DeleteResult(t0, userId, col, dest, now))
  {
    DeleteColumnOrders(t0, userId, col, dest, now);
    var t := DeleteResult(t0, userId, col, dest, now);
    forall u ensures UserColumnsDense(t, u) {
      assert UserColumnsDense(t0, u);
    }
  }

  /** When the applications go to another column that is dense, every column of
      applications stays dense. */
  lemma DeleteKeepsBoardDense(t0: Tables, userId: Id, col: Id, dest: Id, now: int)
    requires WellFormed(t0) && BoardDense(t0) && (AppCount(t0, col) == 0 || dest != col)
    ensures BoardDense(DeleteResult(t0, userId, col, dest, now))
  {
    var t := DeleteResult(t0, userId, col, dest, now);
    DeleteAppOrders(t0, userId, col, dest, now);
    forall c ensures ColumnDense(t, c) {
      if c == col {
        assert ColumnOrder(t, col) == [];
      } else if c == dest {
        assert ColumnDense(t0, dest);
      } else {
        assert ColumnDense(t0, c);
      }
    }
  }

  /** Every moved application goes to `dest`; the others keep their column. */
  lemma DeleteColumnIds(t0: Tables, userId: Id, col: Id, dest: Id, now: int)
    requires WellFormed(t0)
    ensures var t := DeleteResult(t0, userId, col, dest, now);
      && t.apps.Keys == t0.apps.Keys
      && forall x | x in t.apps ::
           && t.apps[x].salaryMin == t0.apps[x].salaryMin && t.apps[x].salaryMax == t0.apps[x].salaryMax
           && (t0.apps[x].columnId == col ==> AppCount(t0, col) > 0 && t.apps[x].columnId == dest)
           && (t0.apps[x].columnId != col ==> t.apps[x].columnId == t0.apps[x].columnId)
  {
    var t := DeleteResult(t0, userId, col, dest, now);
    var m := ColumnOrder(t0, col);
    DeleteAppRows(t0, userId, col, dest, now);
    ColumnOrderMembers(t0, col);
    forall x | x in t.apps && t0.apps[x].columnId == col
      ensures t.apps[x].salaryMin == t0.apps[x].salaryMin && t.apps[x].salaryMax == t0.apps[x].salaryMax
      ensures |m| > 0 && t.apps[x].columnId == dest
    {
      var i := IndexOf(m, x);
    }
  }

  /** When the applications go to another existing column, every application's column
      still exists. */
  lemma DeleteKeepsReferences(t0: Tables, userId: Id, col: Id, dest: Id, now: int)
    requires WellFormed(t0) && OwnsColumn(t0, userId, col) && ColumnsReferenced(t0)
    requires AppCount(t0, col) == 0 || (dest != col && dest in t0.columns)
    ensures ColumnsReferenced(DeleteResult(t0, userId, col, dest, now))
  {
    DeleteColumnRows(t0, userId, col, dest, now);
    DeleteColumnIds(t0, userId, col, dest, now);
  }

  /** When the applications go to another column of the same user, every application's
      column still exists and still belongs to the application's user. */
  lemma DeleteKeepsOwnership(t0: Tables, userId: Id, col: Id, dest: Id, now: int)
    requires WellFormed(t0) && OwnsColumn(t0, userId, col) && ColumnsOwned(t0)
    requires AppCount(t0, col) == 0 || (dest != col && OwnsColumn(t0, userId, dest))
    ensures ColumnsOwned(DeleteResult(t0, userId, col, dest, now))
  {
    var t := DeleteResult(t0, userId, col, dest, now);
    var m := ColumnOrder(t0, col);
    DeleteColumnRows(t0, userId, col, dest, now);
    DeleteAppRows(t0, userId, col, dest, now);
    ColumnOrderMembers(t0, col);
    forall x | x in t.apps ensures OwnsColumn(t, t.apps[x].userId, t.apps[x].columnId) {
      var c := t0.apps[x].columnId;
      if c == col {
        var i := IndexOf(m, x);
        assert t.apps[x] == t0.apps[x].(columnId := dest, position := AppCount(t0, dest) + i, updatedAt := now);
        assert t.columns[dest] == t0.columns[dest].(position := t.columns[dest].position);
      } else {
        assert t.columns[c] == t0.columns[c].(position := t.columns[c].position);
      }
    }
  }

  /** No salary changes, so no salary range becomes inverted. */
  lemma DeleteKeepsSalaries(t0: Tables, userId: Id, col: Id, dest: Id, now: int)
    requires WellFormed(t0) && Applications.SalariesOrdered(t0)
    ensures Applications.SalariesOrdered(DeleteResult(t0, userId, col, dest, now))
  {
    DeleteColumnIds(t0, userId, col, dest, now);
  }

  /** The invariants `handleDelete` keeps when it accepts a request; the last two need the
      applications to go to another existing column. */
  lemma DeleteInvariants(t0: Tables, userId: Id, col: Id, dest: Id, now: int)
    requires WellFormed(t0) && OwnsColumn(t0, userId, col)
    ensures var t := DeleteResult(t0, userId, col, dest, now);
      && (ColumnsDense(t0) ==> ColumnsDense(t))
      && (Applications.SalariesOrdered(t0) ==> Applications.SalariesOrdered(t))
      && (BoardDense(t0) && (AppCount(t0, col) == 0 || dest != col) ==> BoardDense(t))
      && (ColumnsReferenced(t0) && (AppCount(t0, col) == 0 || (dest != col && dest in t0.columns)) ==>
            ColumnsReferenced(t))
      && (ColumnsOwned(t0) && (AppCount(t0, col) == 0 || (dest != col && OwnsColumn(t0, userId, dest))) ==>
            ColumnsOwned(t))
  {
    if ColumnsDense(t0) { DeleteKeepsColumnsDense(t0, userId, col, dest, now); }
    if Applications.SalariesOrdered(t0) { DeleteKeepsSalaries(t0, userId, col, dest, now); }
    if BoardDense(t0) && (AppCount(t0, col) == 0 || dest != col) {
      DeleteKeepsBoardDense(t0, userId, col, dest, now);
    }
    if ColumnsReferenced(t0) && (AppCount(t0, col) == 0 || (dest != col && dest in t0.columns)) {
      DeleteKeepsReferences(t0, userId, col, dest, now);
    }
    if ColumnsOwned(t0) && (AppCount(t0, col) == 0 || (dest != col && OwnsColumn(t0, userId, dest))) {
      DeleteKeepsOwnership(t0, userId, col, dest, now);
    }
  }

  /** `handleDelete` accepts the column itself as the destination; its applications are
      then renumbered behind themselves and left pointing at the deleted column. */
  lemma DeleteIntoItself(t0: Tables, userId: Id, col: Id, now: int)
    requires WellFormed(t0) && OwnsColumn(t0, userId, col) && AppCount(t0, col) > 0
    ensures DeleteRejection(t0, userId, map[ColumnId := Text(col), DestinationColumnId := Text(col)]) == None
    ensures !ColumnsReferenced(DeleteResult(t0, userId, col, col, now))
  {
    var f := map[ColumnId := Text(col), DestinationColumnId := Text(col)];
    assert TextOf(f, ColumnId) == Some(col) && TextOf(f, DestinationColumnId) == Some(col);
    var t := DeleteResult(t0, userId, col, col, now);
    var m := ColumnOrder(t0, col);
    DeleteColumnRows(t0, userId, col, col, now);
    DeleteAppRows(t0, userId, col, col, now);
    assert t.apps[m[0]].columnId == col;
  }

  /** The destination `handleDelete` moves the applications to; a column without
      applications never reads it, and then it does not matter. */
  function DeleteDestination(f: Form): Id {
    TextOf(f, DestinationColumnId).GetOr(TextOf(f, ColumnId).GetOr([]))
  }

  /** `handleDelete`. */
  method HandleDelete(db: Board, userId: Id, f: Form, now: int) returns (r: Response)
    requires db.Valid()
    modifies db
    ensures db.Valid()
    ensures DeleteRejection(old(db.Snapshot()), userId, f).Some? ==>
      r == DeleteRejection(old(db.Snapshot()), userId, f).value && db.Snapshot() == old(db.Snapshot())
    ensures DeleteRejection(old(db.Snapshot()), userId, f).None? ==>
      r == Ok
      && db.Snapshot() == DeleteResult(old(db.Snapshot()), userId, TextOf(f, ColumnId).value, DeleteDestination(f), now)
    ensures old(ColumnsDense(db.Snapshot())) ==> ColumnsDense(db.Snapshot())
    ensures old(Applications.SalariesOrdered(db.Snapshot())) ==> Applications.SalariesOrdered(db.Snapshot())
    ensures old(BoardDense(db.Snapshot())) && TextOf(f, DestinationColumnId) != TextOf(f, ColumnId) ==>
      BoardDense(db.Snapshot())
    ensures old(ColumnsReferenced(db.Snapshot())) && TextOf(f, DestinationColumnId) != TextOf(f, ColumnId) ==>
      ColumnsReferenced(db.Snapshot())
    ensures old(ColumnsOwned(db.Snapshot())) && TextOf(f, DestinationColumnId) != TextOf(f, ColumnId) ==>
      ColumnsOwned(db.Snapshot())
  {
    var columnId := TextOf(f, ColumnId);
    if columnId.None? {
      return Rejected(400, ColumnIdRequired);
    }
    var col := columnId.value;
    if !(col in db.columns && db.columns[col].userId == userId) {
      return Rejected(404, ColumnNotFound);
    }
    var t0 := db.Snapshot();
    var appCount := AppCount(t0, col);
    var dest := DeleteDestination(f);
    if appCount > 0 {
      var destinationColumnId := TextOf(f, DestinationColumnId);
      if destinationColumnId.None? {
        return Rejected(400, DestinationRequired);
      }
      if !(dest in db.columns && db.columns[dest].userId == userId) {
        return Rejected(404, DestinationNotFound);
      }
    }
    ExecDelete(db, userId, col, dest, now);
    DeleteInvariants(t0, userId, col, dest, now);
    r := Ok;
  }

  /** The accepted part of `handleDelete`: move the applications (if any), delete the
      column, and renumber the user's remaining columns. */
  method ExecDelete(db: Board, userId: Id, col: Id, dest: Id, now: int)
    requires db.Valid() && OwnsColumn(db.Snapshot(), userId, col)
    modifies db
    ensures db.Valid()
    ensures db.Snapshot() == DeleteResult(old(db.Snapshot()), userId, col, dest, now)
  {
    var t0 := db.Snapshot();
    if AppCount(t0, col) > 0 {
      var appsToMove := ColumnOrder(t0, col);
      var destAppCount := AppCount(t0, dest);
      var moves := ReassignApps(appsToMove, dest, destAppCount, now);
      RunSnoc(t0, moves, DeleteColumn(col));
      db.Batch(moves + [DeleteColumn(col)]);
    } else {
      ReassignNothing(t0, col, dest, now);
      db.Exec(DeleteColumn(col));
    }
    var remainingColumns := UserColumns(db.Snapshot(), userId);
    if |remainingColumns| > 0 {
      db.Batch(RenumberColumns(remainingColumns));
    } else {
      assert RenumberColumns(remainingColumns) == [];
    }
    DeleteColumnRows(t0, userId, col, dest, now);
  }

  // ---------------------------------------------------------------------------
  // reorder

  /** The first check of `handleReorder` that the request fails: the position must be a
      run of decimal digits, and the column must be among the user's. */
  function ReorderRejection(t: Tables, userId: Id, f: Form): Option<Response> {
    if TextOf(f, ColumnId).None? then Some(Rejected(400, ColumnIdRequired))
    else if TextOf(f, NewPosition).None? || !IsDigits(TextOf(f, NewPosition).value) then
      Some(Rejected(400, BadPosition))
    else if FindIndex(UserColumns(t, userId), TextOf(f, ColumnId).value) == -1 then
      Some(Rejected(404, ColumnNotFound))
    else None
  }

  /** `handleReorder` accepts exactly a digit-string position for a column the user owns. */
  lemma ReorderRejectionMeaning(t: Tables, userId: Id, f: Form)
    requires WellFormed(t)
    ensures ReorderRejection(t, userId, f).None? <==>
      && TextOf(f, ColumnId).Some? && TextOf(f, NewPosition).Some? && IsDigits(TextOf(f, NewPosition).value)
      && OwnsColumn(t, userId, TextOf(f, ColumnId).value)
  {
    UserColumnsMembers(t, userId);
  }

  /** The user's columns in position order with `id` taken out and put back at `k`,
      clamped to the last index. */
  function ReorderedColumns(t: Tables, userId: Id, id: Id, k: int): seq<Id> {
    var s := UserColumns(t, userId);
    var i := FindIndex(s, id);
    if i < 0 then s else Reorder(s, i, k)
  }

  /** The database after `handleReorder`: the user's columns renumbered in the new order. */
  function ReorderResult(t: Tables, userId: Id, id: Id, k: int): Tables {
    Run(t, RenumberColumns(ReorderedColumns(t, userId, id, k)))
  }

  /** The reordered list holds the user's columns, each once, with `id` at the clamped
      position. */
  lemma ReorderLists(t: Tables, userId: Id, id: Id, k: int)
    requires WellFormed(t) && OwnsColumn(t, userId, id)
    ensures var s := UserColumns(t, userId);
      var o := ReorderedColumns(t, userId, id, k);
      && 0 <= FindIndex(s, id)
      && o == Reorder(s, FindIndex(s, id), k)
      && multiset(o) == multiset(s)
      && Distinct(o)
      && (forall x :: x in o <==> OwnsColumn(t, userId, x))
      && o[Clamp(k, 0, |s| - 1)] == id
  {
    var s := UserColumns(t, userId);
    UserColumnsMembers(t, userId);
    var o := ReorderedColumns(t, userId, id, k);
    PermutationDistinct(s, o);
    forall x ensures x in o <==> x in s {
      assert x in o <==> x in multiset(o);
      assert x in s <==> x in multiset(s);
    }
  }

  /** `handleReorder` of an owned column: the user's columns read in the reordered order and
      are numbered 0, 1, ..., the moved column sits at the clamped position, only positions
      change, and other users' columns read as before. */
  lemma ReorderEffect(t: Tables, userId: Id, id: Id, k: int)
    requires WellFormed(t) && OwnsColumn(t, userId, id)
    ensures var s := UserColumns(t, userId);
      var t' := ReorderResult(t, userId, id, k);
      && 0 <= FindIndex(s, id)
      && WellFormed(t')
      && t' == t.(columns := t'.columns) && t'.columns.Keys == t.columns.Keys
      && UserColumns(t', userId) == Reorder(s, FindIndex(s, id), k)
      && multiset(UserColumns(t', userId)) == multiset(s)
      && UserColumnsDense(t', userId)
      && t'.columns[id].position == Clamp(k, 0, |s| - 1)
      && (forall c | c in t.columns :: t'.columns[c] == t.columns[c].(position := t'.columns[c].position))
  {
    var s := UserColumns(t, userId);
    var o := ReorderedColumns(t, userId, id, k);
    ReorderLists(t, userId, id, k);
    RenumberColumnsEffect(t, userId, o);
    var t' := Run(t, RenumberColumns(o));
    forall c | c in t.columns ensures t'.columns[c] == t.columns[c].(position := t'.columns[c].position) {
      if c in o {
        var i := IndexOf(o, c);
      }
    }
  }

  /** Other users' columns are untouched by `handleReorder`. */
  lemma ReorderOthers(t: Tables, userId: Id, id: Id, k: int, u: Id)
    requires WellFormed(t) && OwnsColumn(t, userId, id) && u != userId
    ensures var t' := ReorderResult(t, userId, id, k);
      && UserColumns(t', u) == UserColumns(t, u)
      && UserColumnsDense(t', u) == UserColumnsDense(t, u)
  {
    var o := ReorderedColumns(t, userId, id, k);
    ReorderLists(t, userId, id, k);
    RenumberColumnsEffect(t, userId, o);
    var t' := Run(t, RenumberColumns(o));
    forall c | OwnsColumn(t, u, c) ensures c in t'.columns && t'.columns[c].position == t.columns[c].position {
      assert c !in o;
    }
    UserColumnsDenseFrame(t, t', u);
  }

  /** Renumbering columns that are already numbered 0, 1, ... in their order writes every
      row as it was. */
  lemma RenumberDenseRows(t: Tables, userId: Id)
    requires WellFormed(t) && UserColumnsDense(t, userId)
    ensures var t' := Run(t, RenumberColumns(UserColumns(t, userId)));
      && t' == t.(columns := t'.columns) && t'.columns.Keys == t.columns.Keys
      && forall c | c in t.columns :: t'.columns[c] == t.columns[c]
  {
    var s := UserColumns(t, userId);
    UserColumnsMembers(t, userId);
    RenumberColumnsEffect(t, userId, s);
    var t' := Run(t, RenumberColumns(s));
    forall c | c in t.columns && c in s ensures t'.columns[c] == t.columns[c] {
      var j := IndexOf(s, c);
      assert ColumnPosition(t.columns)(s[j]) == j;
    }
  }

  /** Renumbering columns that are already numbered 0, 1, ... in their order changes
      nothing. */
  lemma RenumberDenseUnchanged(t: Tables, userId: Id)
    requires WellFormed(t) && UserColumnsDense(t, userId)
    ensures Run(t, RenumberColumns(UserColumns(t, userId))) == t
  {
    RenumberDenseRows(t, userId);
    var t' := Run(t, RenumberColumns(UserColumns(t, userId)));
    assert t'.columns == t.columns;
  }

  /** Putting a column back at the index it has, on dense columns, changes nothing. */
  lemma ReorderInPlaceUnchanged(t: Tables, userId: Id, id: Id)
    requires WellFormed(t) && OwnsColumn(t, userId, id) && UserColumnsDense(t, userId)
    ensures ReorderResult(t, userId, id, FindIndex(UserColumns(t, userId), id)) == t
  {
    var s := UserColumns(t, userId);
    var i := FindIndex(s, id);
    UserColumnsMembers(t, userId);
    ReorderInPlace(s, i);
    assert ReorderedColumns(t, userId, id, i) == s;
    RenumberDenseUnchanged(t, userId);
  }

  /** `handleReorder` writes only column positions, so it keeps every invariant. */
  lemma ReorderInvariants(t: Tables, userId: Id, id: Id, k: int)
    requires WellFormed(t) && OwnsColumn(t, userId, id)
    ensures var t' := ReorderResult(t, userId, id, k);
      && (ColumnsDense(t) ==> ColumnsDense(t'))
      && (BoardDense(t) ==> BoardDense(t'))
      && (ColumnsReferenced(t) ==> ColumnsReferenced(t'))
      && (ColumnsOwned(t) ==> ColumnsOwned(t'))
      && (Applications.SalariesOrdered(t) ==> Applications.SalariesOrdered(t'))
  {
    var t' := ReorderResult(t, userId, id, k);
    ReorderEffect(t, userId, id, k);
    AppsFrame(t, t');
    if ColumnsDense(t) {
      forall u ensures UserColumnsDense(t', u) {
        if u != userId {
          ReorderOthers(t, userId, id, k, u);
          assert UserColumnsDense(t, u);
        }
      }
    }
  }

  /** The accepted path of `handleReorder`. */
  method ExecReorder(db: Board, userId: Id, id: Id, k: int)
    requires db.Valid() && OwnsColumn(db.Snapshot(), userId, id)
    modifies db
    ensures db.Valid()
    ensures db.Snapshot() == ReorderResult(old(db.Snapshot()), userId, id, k)
    ensures old(ColumnsDense(db.Snapshot())) ==> ColumnsDense(db.Snapshot())
    ensures old(BoardDense(db.Snapshot())) ==> BoardDense(db.Snapshot())
    ensures old(ColumnsReferenced(db.Snapshot())) ==> ColumnsReferenced(db.Snapshot())
    ensures old(ColumnsOwned(db.Snapshot())) ==> ColumnsOwned(db.Snapshot())
    ensures old(Applications.SalariesOrdered(db.Snapshot())) ==> Applications.SalariesOrdered(db.Snapshot())
  {
    var t0 := db.Snapshot();
    var columns := UserColumns(t0, userId);
    ReorderLists(t0, userId, id, k);
    var currentIndex := FindIndex(columns, id);
    var newPosition := Clamp(k, 0, |columns| - 1);
    var reordered := Reorder(columns, currentIndex, newPosition);
    assert reordered == ReorderedColumns(t0, userId, id, k);
    ReorderEffect(t0, userId, id, k);
    ReorderInvariants(t0, userId, id, k);
    db.Batch(RenumberColumns(reordered));
  }

  /** `handleReorder`. */
  method HandleReorder(db: Board, userId: Id, f: Form) returns (r: Response)
    requires db.Valid()
    modifies db
    ensures db.Valid()
    ensures ReorderRejection(old(db.Snapshot()), userId, f).Some? ==>
      r == ReorderRejection(old(db.Snapshot()), userId, f).value && db.Snapshot() == old(db.Snapshot())
    ensures ReorderRejection(old(db.Snapshot()), userId, f).None? ==>
      r == Ok
      && db.Snapshot() == ReorderResult(old(db.Snapshot()), userId, TextOf(f, ColumnId).value,
                                        RunValue(TextOf(f, NewPosition).value, 10))
    ensures old(ColumnsDense(db.Snapshot())) ==> ColumnsDense(db.Snapshot())
    ensures old(BoardDense(db.Snapshot())) ==> BoardDense(db.Snapshot())
    ensures old(ColumnsReferenced(db.Snapshot())) ==> ColumnsReferenced(db.Snapshot())
    ensures old(ColumnsOwned(db.Snapshot())) ==> ColumnsOwned(db.Snapshot())
    ensures old(Applications.SalariesOrdered(db.Snapshot())) ==> Applications.SalariesOrdered(db.Snapshot())
  {
    var columnId := TextOf(f, ColumnId);
    var newPositionStr := TextOf(f, NewPosition);
    if columnId.None? {
      return Rejected(400, ColumnIdRequired);
    }
    if newPositionStr.None? || !IsDigits(newPositionStr.value) {
      return Rejected(400, BadPosition);
    }
    var columns := UserColumns(db.Snapshot(), userId);
    var currentIndex := FindIndex(columns, columnId.value);
    if currentIndex == -1 {
      return Rejected(404, ColumnNotFound);
    }
    UserColumnsMembers(db.Snapshot(), userId);
    ParseIntOfDigits(newPositionStr.value);
    ExecReorder(db, userId, columnId.value, ParseInt(newPositionStr.value).value);
    r := Ok;
  }

  // ---------------------------------------------------------------------------
  // dispatch

  /** A delete that names the column itself as the destination. */
  predicate DeletesIntoItself(f: Form) {
    TextOf(f, Intent) == Some("delete") && TextOf(f, DestinationColumnId) == TextOf(f, ColumnId)
  }

  /** The `intent` switch of the route action. An intent that names no handler is a 400
      and touches nothing. */
  method Action(db: Board, userId: Id, f: Form, now: int, columnId: Id) returns (r: Response)
    requires db.Valid() && columnId !in db.columns
    modifies db
    ensures db.Valid()
    ensures TextOf(f, Intent) !in {Some("create"), Some("update"), Some("delete"), Some("reorder")} ==>
      r == Rejected(400, UnknownIntent) && db.Snapshot() == old(db.Snapshot())
    ensures TextOf(f, Intent) == Some("create") ==>
      && (CreateRejection(f).Some? ==> r == CreateRejection(f).value && db.Snapshot() == old(db.Snapshot()))
      && (CreateRejection(f).None? ==>
            r == Created(columnId)
            && db.Snapshot() == Apply(old(db.Snapshot()), InsertColumn(CreatedColumn(old(db.Snapshot()), userId, f, now, columnId))))
    ensures TextOf(f, Intent) == Some("update") ==>
      && (UpdateRejection(old(db.Snapshot()), userId, f).Some? ==>
            r == UpdateRejection(old(db.Snapshot()), userId, f).value && db.Snapshot() == old(db.Snapshot()))
      && (UpdateRejection(old(db.Snapshot()), userId, f).None? ==>
            r == Ok && db.Snapshot() == Apply(old(db.Snapshot()), UpdateColumn(TextOf(f, ColumnId).value, UpdatePatch(f, now))))
    ensures TextOf(f, Intent) == Some("delete") ==>
      && (DeleteRejection(old(db.Snapshot()), userId, f).Some? ==>
            r == DeleteRejection(old(db.Snapshot()), userId, f).value && db.Snapshot() == old(db.Snapshot()))
      && (DeleteRejection(old(db.Snapshot()), userId, f).None? ==>
            r == Ok
            && db.Snapshot() == DeleteResult(old(db.Snapshot()), userId, TextOf(f, ColumnId).value, DeleteDestination(f), now))
    ensures TextOf(f, Intent) == Some("reorder") ==>
      && (ReorderRejection(old(db.Snapshot()), userId, f).Some? ==>
            r == ReorderRejection(old(db.Snapshot()), userId, f).value && db.Snapshot() == old(db.Snapshot()))
      && (ReorderRejection(old(db.Snapshot()), userId, f).None? ==>
            r == Ok
            && db.Snapshot() == ReorderResult(old(db.Snapshot()), userId, TextOf(f, ColumnId).value,
                                              RunValue(TextOf(f, NewPosition).value, 10)))
    ensures old(ColumnsDense(db.Snapshot())) ==> ColumnsDense(db.Snapshot())
    ensures old(Applications.SalariesOrdered(db.Snapshot())) ==> Applications.SalariesOrdered(db.Snapshot())
    ensures (old(BoardDense(db.Snapshot())) && !DeletesIntoItself(f)) ==> BoardDense(db.Snapshot())
    ensures (old(ColumnsReferenced(db.Snapshot())) && !DeletesIntoItself(f)) ==> ColumnsReferenced(db.Snapshot())
    ensures (old(ColumnsOwned(db.Snapshot())) && !DeletesIntoItself(f)) ==> ColumnsOwned(db.Snapshot())
  {
    var intent := TextOf(f, Intent);
    match intent
    case Some("create") => r := HandleCreate(db, userId, f, now, columnId);
    case Some("update") => r := HandleUpdate(db, userId, f, now);
    case Some("delete") => r := HandleDelete(db, userId, f, now);
    case Some("reorder") => r := HandleReorder(db, userId, f);
    case _ => r := Rejected(400, UnknownIntent);
  }
}
