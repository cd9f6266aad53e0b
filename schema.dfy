/**
 * The record shapes of the kanban tables: `board_column`, `application`, `contact`
 * and `column_transition`. Timestamps are milliseconds since the epoch, kept as
 * given: the store's cut of `mode: "timestamp"` columns to whole seconds is not
 * modelled. `Option` marks the nullable columns, every other field is NOT NULL by
 * its type.
 */
module Schema {
  import opened Wrappers
  import opened Ordering

  type Id = string

  /** The value `salary_currency` takes when an insert does not give one. */
  const DefaultCurrency: string := "USD"

  /** A kanban column. It belongs to exactly one user. `updatedAt` is written by the
      handlers although the table definition does not list it. */
  datatype ColumnRow = ColumnRow(
    id: Id,
    userId: Id,
    name: string,
    color: string,
    position: int,
    createdAt: int,
    updatedAt: int)

  /** One tracked job application, always in exactly one column. */
  datatype AppRow = AppRow(
    id: Id,
    userId: Id,
    columnId: Id,
    company: string,
    role: string,
    url: Option<string>,
    dateApplied: Option<int>,
    salaryMin: Option<int>,
    salaryMax: Option<int>,
    salaryCurrency: string,
    notes: Option<string>,
    position: int,
    createdAt: int,
    updatedAt: int)

  datatype ContactRow = ContactRow(
    id: Id,
    applicationId: Id,
    name: string,
    role: Option<string>,
    email: Option<string>,
    phone: Option<string>,
    notes: Option<string>,
    createdAt: int)

  /** One entry of an application's column history; `fromColumnId` is null for the
      transition that records the creation. */
  datatype TransitionRow = TransitionRow(
    id: Id,
    applicationId: Id,
    fromColumnId: Option<Id>,
    toColumnId: Id,
    transitionedAt: int)

  /**
   * The argument of `.set({...})` on an application: each field is either left out
   * (`None`) or given a new value. For a nullable column the new value is itself an
   * `Option`, so `Some(None)` writes NULL.
   */
  datatype AppPatch = AppPatch(
    columnId: Option<Id>,
    company: Option<string>,
    role: Option<string>,
    url: Option<Option<string>>,
    dateApplied: Option<Option<int>>,
    salaryMin: Option<Option<int>>,
    salaryMax: Option<Option<int>>,
    salaryCurrency: Option<string>,
    notes: Option<Option<string>>,
    position: Option<int>,
    updatedAt: Option<int>)

  /** A patch that sets nothing. */
  const EmptyAppPatch: AppPatch :=
    AppPatch(None, None, None, None, None, None, None, None, None, None, None)

  /** `.set({ position: p })`. */
  function PositionPatch(p: int): AppPatch {
    EmptyAppPatch.(position := Some(p))
  }

  /** `.set({ columnId: c, position: p, updatedAt: now })`. */
  function MovePatch(c: Id, p: int, now: int): AppPatch {
    EmptyAppPatch.(columnId := Some(c), position := Some(p), updatedAt := Some(now))
  }

  /** The row after an `UPDATE application SET ...`: given fields replaced, the rest kept. */
  function ApplyAppPatch(a: AppRow, p: AppPatch): (r: AppRow)
    ensures r.id == a.id && r.userId == a.userId && r.createdAt == a.createdAt
    ensures p.position.Some? ==> r.position == p.position.value
    ensures p.position.None? ==> r.position == a.position
    ensures p.columnId.Some? ==> r.columnId == p.columnId.value
    ensures p.columnId.None? ==> r.columnId == a.columnId
  {
    AppRow(
      a.id, a.userId,
      p.columnId.GetOr(a.columnId),
      p.company.GetOr(a.company),
      p.role.GetOr(a.role),
      p.url.GetOr(a.url),
      p.dateApplied.GetOr(a.dateApplied),
      p.salaryMin.GetOr(a.salaryMin),
      p.salaryMax.GetOr(a.salaryMax),
      p.salaryCurrency.GetOr(a.salaryCurrency),
      p.notes.GetOr(a.notes),
      p.position.GetOr(a.position),
      a.createdAt,
      p.updatedAt.GetOr(a.updatedAt))
  }

  /** A patch that sets nothing leaves the row as it was. */
  lemma EmptyAppPatchIdentity(a: AppRow)
    ensures ApplyAppPatch(a, EmptyAppPatch) == a
  {
  }

  /** `.set({ position: p })` changes the position and nothing else. */
  lemma PositionPatchApply(a: AppRow, p: int)
    ensures ApplyAppPatch(a, PositionPatch(p)) == a.(position := p)
  {
  }

  /** `.set({ columnId: c, position: p, updatedAt: now })` changes exactly those three. */
  lemma MovePatchApply(a: AppRow, c: Id, p: int, now: int)
    ensures ApplyAppPatch(a, MovePatch(c, p, now)) == a.(columnId := c, position := p, updatedAt := now)
  {
  }

  /** The argument of `.set({...})` on a column. */
  datatype ColumnPatch = ColumnPatch(
    name: Option<string>,
    color: Option<string>,
    position: Option<int>,
    updatedAt: Option<int>)

  function ColumnPositionPatch(p: int): ColumnPatch {
    ColumnPatch(None, None, Some(p), None)
  }

  function ApplyColumnPatch(c: ColumnRow, p: ColumnPatch): (r: ColumnRow)
    ensures r.id == c.id && r.userId == c.userId && r.createdAt == c.createdAt
    ensures p.position.Some? ==> r.position == p.position.value
    ensures p.position.None? ==> r.position == c.position
  {
    ColumnRow(
      c.id, c.userId,
      p.name.GetOr(c.name),
      p.color.GetOr(c.color),
      p.position.GetOr(c.position),
      c.createdAt,
      p.updatedAt.GetOr(c.updatedAt))
  }

  // ---------------------------------------------------------------------------
  // ON DELETE CASCADE from application to contact and column_transition

  /** The contacts left after deleting application `appId`: those of other applications. */
  function CascadeContacts(cs: seq<ContactRow>, appId: Id): (r: seq<ContactRow>)
    ensures forall c :: c in r <==> c in cs && c.applicationId != appId
    ensures |r| <= |cs|
  {
    if cs == [] then []
    else
      var rest := CascadeContacts(cs[..|cs| - 1], appId);
      var c := cs[|cs| - 1];
      assert cs == cs[..|cs| - 1] + [c];
      rest + (if c.applicationId != appId then [c] else [])
  }

  /** Contacts of other applications keep their relative order through the cascade. */
  lemma {:induction false} CascadeContactsAppend(cs: seq<ContactRow>, u: seq<ContactRow>, appId: Id)
    ensures CascadeContacts(cs + u, appId) == CascadeContacts(cs, appId) + CascadeContacts(u, appId)
  {
    if u == [] {
      assert cs + u == cs;
    } else {
      var u' := u[..|u| - 1];
      var x := u[|u| - 1];
      SplitLast(u);
      assert cs + u == (cs + u') + [x];
      CascadeContactsSnoc(cs + u', x, appId);
      CascadeContactsSnoc(u', x, appId);
      CascadeContactsAppend(cs, u', appId);
    }
  }

  lemma CascadeContactsSnoc(cs: seq<ContactRow>, x: ContactRow, appId: Id)
    ensures CascadeContacts(cs + [x], appId) ==
      CascadeContacts(cs, appId) + (if x.applicationId != appId then [x] else [])
  {
    assert (cs + [x])[..|cs|] == cs;
  }

  /** A contact list holding no contact of `appId` is left untouched by the cascade. */
  lemma {:induction false} CascadeContactsNone(cs: seq<ContactRow>, appId: Id)
    requires forall i | 0 <= i < |cs| :: cs[i].applicationId != appId
    ensures CascadeContacts(cs, appId) == cs
  {
    if cs != [] {
      var p := cs[..|cs| - 1];
      assert forall i | 0 <= i < |p| :: p[i] == cs[i];
      CascadeContactsNone(p, appId);
      SplitLast(cs);
    }
  }

  /** The transitions left after deleting application `appId`. */
  function CascadeTransitions(ts: seq<TransitionRow>, appId: Id): (r: seq<TransitionRow>)
    ensures forall t :: t in r <==> t in ts && t.applicationId != appId
    ensures |r| <= |ts|
  {
    if ts == [] then []
    else
      var rest := CascadeTransitions(ts[..|ts| - 1], appId);
      var t := ts[|ts| - 1];
      assert ts == ts[..|ts| - 1] + [t];
      rest + (if t.applicationId != appId then [t] else [])
  }

  /** Rows of other applications keep their relative order through the cascade. */
  lemma {:induction false} CascadeTransitionsAppend(ts: seq<TransitionRow>, u: seq<TransitionRow>, appId: Id)
    ensures CascadeTransitions(ts + u, appId) == CascadeTransitions(ts, appId) + CascadeTransitions(u, appId)
  {
    if u == [] {
      assert ts + u == ts;
    } else {
      var u' := u[..|u| - 1];
      var x := u[|u| - 1];
      SplitLast(u);
      assert ts + u == (ts + u') + [x];
      CascadeTransitionsSnoc(ts + u', x, appId);
      CascadeTransitionsSnoc(u', x, appId);
      CascadeTransitionsAppend(ts, u', appId);
    }
  }

  lemma CascadeTransitionsSnoc(ts: seq<TransitionRow>, x: TransitionRow, appId: Id)
    ensures CascadeTransitions(ts + [x], appId) ==
      CascadeTransitions(ts, appId) + (if x.applicationId != appId then [x] else [])
  {
    assert (ts + [x])[..|ts|] == ts;
  }

  /** A table holding no row of `appId` is left untouched by the cascade. */
  lemma {:induction false} CascadeTransitionsNone(ts: seq<TransitionRow>, appId: Id)
    requires forall i | 0 <= i < |ts| :: ts[i].applicationId != appId
    ensures CascadeTransitions(ts, appId) == ts
  {
    if ts != [] {
      var p := ts[..|ts| - 1];
      assert forall i | 0 <= i < |p| :: p[i] == ts[i];
      CascadeTransitionsNone(p, appId);
      SplitLast(ts);
    }
  }
}
