/**
 * The application routes of the board: create, update, delete and move a job
 * application, and the `intent` dispatch in front of them. Each handler reads the
 * store, rejects the request with a status and a message, or writes its statements
 * and answers.
 *
 * The clock (`new Date()`), the fresh ids (`crypto.randomUUID()` and the transition
 * row's default id) and the date parser (`new Date(s)`) are parameters.
 */
module Applications {
  import opened Wrappers
  import opened JsText
  import opened Ordering
  import opened Schema
  import opened Store
  import opened Forms

  /** `new Date(s).getTime()`, with an Invalid Date as `None`. */
  type DateParser = string -> Option<int>

  // ---------------------------------------------------------------------------
  // Reading optional fields

  /** An optional date: a missing, non-string or empty value is null; otherwise it must parse. */
  function DateField(f: Form, k: Field, parseDate: DateParser): (r: Result<Option<int>, ()>)
    ensures !NonEmptyText(f, k) ==> r == Success(None)
    ensures NonEmptyText(f, k) ==> (r.Success? <==> parseDate(TextOf(f, k).value).Some?)
    ensures r.Success? && r.value.Some? ==> NonEmptyText(f, k) && r.value == parseDate(TextOf(f, k).value)
  {
    if NonEmptyText(f, k) then
      var d := parseDate(TextOf(f, k).value);
      if d.None? then Failure(()) else Success(d)
    else Success(None)
  }

  /** An optional salary: a missing, non-string or empty value is null; otherwise
      `parseInt` must not be NaN. */
  function SalaryField(f: Form, k: Field): (r: Result<Option<int>, ()>)
    ensures !NonEmptyText(f, k) ==> r == Success(None)
    ensures NonEmptyText(f, k) ==> (r.Success? <==> ParseInt(TextOf(f, k).value).Some?)
    ensures r.Success? && r.value.Some? ==> NonEmptyText(f, k) && r.value == ParseInt(TextOf(f, k).value)
  {
    if NonEmptyText(f, k) then
      var n := ParseInt(TextOf(f, k).value);
      if n.None? then Failure(()) else Success(n)
    else Success(None)
  }

  /** A salary typed as `"12abc"` is accepted as 12, because `parseInt` stops at the
      first character that is not a digit. */
  lemma SalaryTrailingTextAccepted(f: Form)
    requires SalaryMin in f && f[SalaryMin] == Text("12abc")
    ensures SalaryField(f, SalaryMin) == Success(Some(12))
  {
    ParseIntTrailingText();
  }

  /** `min !== null && max !== null && min > max`. */
  predicate SalaryInverted(min: Option<int>, max: Option<int>) {
    min.Some? && max.Some? && min.value > max.value
  }

  /** No stored application has a minimum salary above its maximum. */
  predicate SalariesOrdered(t: Tables) {
    forall id | id in t.apps :: !SalaryInverted(t.apps[id].salaryMin, t.apps[id].salaryMax)
  }

  /** `if (typeof v === "string" && v) { parsed = new Date(v); if (isNaN(...)) return 400 }`. */
  method ReadDate(f: Form, k: Field, parseDate: DateParser) returns (err: Option<Response>, v: Option<int>)
    ensures err.Some? <==> DateField(f, k, parseDate).Failure?
    ensures err.Some? ==> err.value == Rejected(400, InvalidDate)
    ensures err.None? ==> v == DateField(f, k, parseDate).value
  {
    err, v := None, None;
    if NonEmptyText(f, k) {
      var parsed := parseDate(TextOf(f, k).value);
      if parsed.None? {
        err := Some(Rejected(400, InvalidDate));
      }
      v := parsed;
    }
  }

  /** `if (typeof v === "string" && v) { n = parseInt(v); if (isNaN(n)) return 400 }`. */
  method ReadNumber(f: Form, k: Field, message: Message) returns (err: Option<Response>, v: Option<int>)
    ensures err.Some? <==> SalaryField(f, k).Failure?
    ensures err.Some? ==> err.value == Rejected(400, message)
    ensures err.None? ==> v == SalaryField(f, k).value
  {
    err, v := None, None;
    if NonEmptyText(f, k) {
      v := ParseInt(TextOf(f, k).value);
      if v.None? {
        err := Some(Rejected(400, message));
      }
    }
  }

  // ---------------------------------------------------------------------------
  // create

  /** The first check of `handleCreate` that the request fails, in the handler's order. */
  function CreateRejection(t: Tables, userId: Id, f: Form, parseDate: DateParser): Option<Response> {
    if TextOf(f, ColumnId).None? then Some(Rejected(400, ColumnIdRequired))
    else if !NonBlankText(f, Company) then Some(Rejected(400, CompanyRequired))
    else if !NonBlankText(f, Role) then Some(Rejected(400, RoleRequired))
    else if !OwnsColumn(t, userId, TextOf(f, ColumnId).value) then Some(Rejected(404, ColumnNotFound))
    else if DateField(f, DateApplied, parseDate).Failure? then Some(Rejected(400, InvalidDate))
    else if SalaryField(f, SalaryMin).Failure? then Some(Rejected(400, SalaryMinNotNumber))
    else if SalaryField(f, SalaryMax).Failure? then Some(Rejected(400, SalaryMaxNotNumber))
    else if SalaryInverted(SalaryField(f, SalaryMin).value, SalaryField(f, SalaryMax).value) then
      Some(Rejected(400, SalaryRange))
    else None
  }

  /** A create that passes every check names a column the user owns, has a company and
      a role, and carries salaries in order; and every rejection is a 400 or a 404. */
  lemma CreateRejectionMeaning(t: Tables, userId: Id, f: Form, parseDate: DateParser)
    ensures CreateRejection(t, userId, f, parseDate).None? ==>
      && TextOf(f, ColumnId).Some? && OwnsColumn(t, userId, TextOf(f, ColumnId).value)
      && Trim(TextOf(f, Company).value) != [] && Trim(TextOf(f, Role).value) != []
      && DateField(f, DateApplied, parseDate).Success?
      && SalaryField(f, SalaryMin).Success? && SalaryField(f, SalaryMax).Success?
      && !SalaryInverted(SalaryField(f, SalaryMin).value, SalaryField(f, SalaryMax).value)
    ensures CreateRejection(t, userId, f, parseDate).Some? ==>
      var r := CreateRejection(t, userId, f, parseDate).value;
      && r.Rejected? && (r.status == 400 || r.status == 404)
      && (r.status == 404 <==>
            && TextOf(f, ColumnId).Some? && NonBlankText(f, Company) && NonBlankText(f, Role)
            && !OwnsColumn(t, userId, TextOf(f, ColumnId).value))
  {
    if TextOf(f, ColumnId).None? {
    } else if !NonBlankText(f, Company) {
    } else if !NonBlankText(f, Role) {
    } else if !OwnsColumn(t, userId, TextOf(f, ColumnId).value) {
    } else if DateField(f, DateApplied, parseDate).Failure? {
    } else if SalaryField(f, SalaryMin).Failure? {
    } else if SalaryField(f, SalaryMax).Failure? {
    }
  }

  /** The application row `handleCreate` inserts, and what the insert does to the store. */
  ghost predicate CreateEffect(t0: Tables, t: Tables, userId: Id, f: Form, now: int, appId: Id,
                               transitionId: Id, parseDate: DateParser)
    requires CreateRejection(t0, userId, f, parseDate).None?
  {
    CreateRejectionMeaning(t0, userId, f, parseDate);
    var c := TextOf(f, ColumnId).value;
    && appId in t.apps
    && var a := t.apps[appId];
    && a.id == appId && a.userId == userId && a.columnId == c
    && a.company == Trim(TextOf(f, Company).value)
    && a.role == Trim(TextOf(f, Role).value)
    && a.url == TrimmedOrNull(f, Url)
    && a.dateApplied == DateField(f, DateApplied, parseDate).value
    && a.salaryMin == SalaryField(f, SalaryMin).value
    && a.salaryMax == SalaryField(f, SalaryMax).value
    && a.salaryCurrency == (if NonBlankText(f, SalaryCurrency) then Trim(TextOf(f, SalaryCurrency).value)
                            else DefaultCurrency)
    && a.notes == TrimmedOrNull(f, Notes)
    && a.position == AppCount(t0, c)
    && a.createdAt == now && a.updatedAt == now
    && t.apps == t0.apps[appId := a]
    && t.appOrder == t0.appOrder + [appId]
    && t.transitions == t0.transitions + [TransitionRow(transitionId, appId, None, c, now)]
    && t.columns == t0.columns && t.colOrder == t0.colOrder && t.contacts == t0.contacts
    && (ColumnDense(t0, c) ==> ColumnOrder(t, c) == ColumnOrder(t0, c) + [appId] && ColumnDense(t, c))
    && (forall c' | c' != c :: ColumnOrder(t, c') == ColumnOrder(t0, c'))
  }

  /** The batch of `handleCreate` adds the row and its first transition, nothing else. */
  lemma CreateBatchTables(t0: Tables, row: AppRow, tr: TransitionRow)
    requires WellFormed(t0) && row.id !in t0.apps
    ensures Run(t0, [InsertApp(row), InsertTransition(tr)]) ==
      t0.(apps := t0.apps[row.id := row], appOrder := t0.appOrder + [row.id],
          transitions := t0.transitions + [tr])
    ensures WellFormed(Run(t0, [InsertApp(row), InsertTransition(tr)]))
  {
    var t1 := t0.(apps := t0.apps[row.id := row], appOrder := t0.appOrder + [row.id]);
    assert t1 == Apply(t0, InsertApp(row));
    RunPair(t0, InsertApp(row), InsertTransition(tr));
    ApplyWellFormed(t0, InsertApp(row));
  }

  /** The new row appended at `position = count` joins the end of its column's order;
      every other column is untouched. */
  lemma CreateBatchColumns(t0: Tables, t: Tables, row: AppRow, tr: TransitionRow)
    requires WellFormed(t0) && row.id !in t0.apps && row.position == AppCount(t0, row.columnId)
    requires t == t0.(apps := t0.apps[row.id := row], appOrder := t0.appOrder + [row.id],
                      transitions := t0.transitions + [tr])
    ensures ColumnDense(t0, row.columnId) ==>
      ColumnOrder(t, row.columnId) == ColumnOrder(t0, row.columnId) + [row.id] && ColumnDense(t, row.columnId)
    ensures forall c | c != row.columnId :: ColumnOrder(t, c) == ColumnOrder(t0, c)
    ensures BoardDense(t0) ==> BoardDense(t)
  {
    var t1 := t0.(apps := t0.apps[row.id := row], appOrder := t0.appOrder + [row.id]);
    assert t1 == Apply(t0, InsertApp(row));
    AppsFrame(t1, t);
    forall c | c != row.columnId ensures ColumnOrder(t1, c) == ColumnOrder(t0, c) {
      InsertAppOtherColumn(t0, row, c);
    }
    if ColumnDense(t0, row.columnId) {
      InsertAppAtEnd(t0, row);
    }
    if BoardDense(t0) {
      InsertAppBoardDense(t0, row);
    }
  }

  /** The new row refers to an existing column of its own user and has its salaries in
      order, so the row invariants carry over. */
  lemma CreateBatchInvariants(t0: Tables, t: Tables, row: AppRow, tr: TransitionRow)
    requires t == t0.(apps := t0.apps[row.id := row], appOrder := t0.appOrder + [row.id],
                      transitions := t0.transitions + [tr])
    ensures ColumnsReferenced(t0) && row.columnId in t0.columns ==> ColumnsReferenced(t)
    ensures ColumnsOwned(t0) && OwnsColumn(t0, row.userId, row.columnId) ==> ColumnsOwned(t)
    ensures SalariesOrdered(t0) && !SalaryInverted(row.salaryMin, row.salaryMax) ==> SalariesOrdered(t)
  {
  }

  /** The row `handleCreate` builds from an accepted form. */
  function CreatedRow(t0: Tables, userId: Id, f: Form, now: int, appId: Id, parseDate: DateParser): AppRow
    requires CreateRejection(t0, userId, f, parseDate).None?
  {
    CreateRejectionMeaning(t0, userId, f, parseDate);
    var c := TextOf(f, ColumnId).value;
    AppRow(appId, userId, c,
      Trim(TextOf(f, Company).value), Trim(TextOf(f, Role).value),
      TrimmedOrNull(f, Url), DateField(f, DateApplied, parseDate).value,
      SalaryField(f, SalaryMin).value, SalaryField(f, SalaryMax).value,
      if NonBlankText(f, SalaryCurrency) then Trim(TextOf(f, SalaryCurrency).value) else DefaultCurrency,
      TrimmedOrNull(f, Notes), AppCount(t0, c), now, now)
  }

  /** The batch of `handleCreate` has the effect `CreateEffect` describes. */
  lemma CreateBatchEffect(t0: Tables, userId: Id, f: Form, now: int, appId: Id, transitionId: Id,
                          parseDate: DateParser)
    requires WellFormed(t0) && appId !in t0.apps
    requires CreateRejection(t0, userId, f, parseDate).None?
    ensures var row := CreatedRow(t0, userId, f, now, appId, parseDate);
      var tr := TransitionRow(transitionId, appId, None, row.columnId, now);
      CreateEffect(t0, Run(t0, [InsertApp(row), InsertTransition(tr)]), userId, f, now, appId, transitionId, parseDate)
  {
    var row := CreatedRow(t0, userId, f, now, appId, parseDate);
    var tr := TransitionRow(transitionId, appId, None, row.columnId, now);
    CreateBatchTables(t0, row, tr);
    CreateBatchColumns(t0, Run(t0, [InsertApp(row), InsertTransition(tr)]), row, tr);
  }

  /** `handleCreate`. */
  method HandleCreate(db: Board, userId: Id, f: Form, now: int, appId: Id, transitionId: Id,
                      parseDate: DateParser) returns (r: Response)
    requires db.Valid() && appId !in db.apps
    modifies db
    ensures db.Valid()
    ensures CreateRejection(old(db.Snapshot()), userId, f, parseDate).Some? ==>
      r == CreateRejection(old(db.Snapshot()), userId, f, parseDate).value && db.Snapshot() == old(db.Snapshot())
    ensures CreateRejection(old(db.Snapshot()), userId, f, parseDate).None? ==>
      r == Created(appId) && CreateEffect(old(db.Snapshot()), db.Snapshot(), userId, f, now, appId, transitionId, parseDate)
    ensures old(BoardDense(db.Snapshot())) ==> BoardDense(db.Snapshot())
    ensures old(ColumnsReferenced(db.Snapshot())) ==> ColumnsReferenced(db.Snapshot())
    ensures old(ColumnsOwned(db.Snapshot())) ==> ColumnsOwned(db.Snapshot())
    ensures old(SalariesOrdered(db.Snapshot())) ==> SalariesOrdered(db.Snapshot())
  {
    var t0 := db.Snapshot();
    var columnId := TextOf(f, ColumnId);
    if columnId.None? {
      return Rejected(400, ColumnIdRequired);
    }
    if !NonBlankText(f, Company) {
      return Rejected(400, CompanyRequired);
    }
    if !NonBlankText(f, Role) {
      return Rejected(400, RoleRequired);
    }
    var c := columnId.value;
    if !(c in db.columns && db.columns[c].userId == userId) {
      return Rejected(404, ColumnNotFound);
    }
    var position := AppCount(t0, c);

    var err, dateApplied := ReadDate(f, DateApplied, parseDate);
    if err.Some? {
      assert CreateRejection(t0, userId, f, parseDate) == err;
      return err.value;
    }
    var salaryMin, salaryMax;
    err, salaryMin := ReadNumber(f, SalaryMin, SalaryMinNotNumber);
    if err.Some? {
      assert CreateRejection(t0, userId, f, parseDate) == err;
      return err.value;
    }
    err, salaryMax := ReadNumber(f, SalaryMax, SalaryMaxNotNumber);
    if err.Some? {
      assert CreateRejection(t0, userId, f, parseDate) == err;
      return err.value;
    }
    if SalaryInverted(salaryMin, salaryMax) {
      assert CreateRejection(t0, userId, f, parseDate) == Some(Rejected(400, SalaryRange));
      return Rejected(400, SalaryRange);
    }
    assert CreateRejection(t0, userId, f, parseDate).None?;

    var row := AppRow(appId, userId, c,
      Trim(TextOf(f, Company).value), Trim(TextOf(f, Role).value),
      TrimmedOrNull(f, Url), dateApplied, salaryMin, salaryMax,
      if NonBlankText(f, SalaryCurrency) then Trim(TextOf(f, SalaryCurrency).value) else DefaultCurrency,
      TrimmedOrNull(f, Notes), position, now, now);
    assert row == CreatedRow(t0, userId, f, now, appId, parseDate);
    var tr := TransitionRow(transitionId, appId, None, c, now);
    CreateBatchEffect(t0, userId, f, now, appId, transitionId, parseDate);
    CreateBatchTables(t0, row, tr);
    CreateBatchColumns(t0, Run(t0, [InsertApp(row), InsertTransition(tr)]), row, tr);
    CreateBatchInvariants(t0, Run(t0, [InsertApp(row), InsertTransition(tr)]), row, tr);
    db.Batch([InsertApp(row), InsertTransition(tr)]);
    r := Created(appId);
  }

  // ---------------------------------------------------------------------------
  // update

  /** The first field check of `handleUpdate` that fails; only fields the form has are checked. */
  function FieldRejection(f: Form, parseDate: DateParser): Option<Response> {
    if Company in f && !NonBlankText(f, Company) then Some(Rejected(400, CompanyEmpty))
    else if Role in f && !NonBlankText(f, Role) then Some(Rejected(400, RoleEmpty))
    else if DateApplied in f && DateField(f, DateApplied, parseDate).Failure? then
      Some(Rejected(400, InvalidDate))
    else if SalaryMin in f && SalaryField(f, SalaryMin).Failure? then
      Some(Rejected(400, SalaryMinNotNumber))
    else if SalaryMax in f && SalaryField(f, SalaryMax).Failure? then
      Some(Rejected(400, SalaryMaxNotNumber))
    else None
  }

  /** A nullable text field of the update: written whenever the key is present, NULL when blank. */
  function NullableTextUpdate(f: Form, k: Field): (r: Option<Option<string>>)
    ensures r.Some? <==> k in f
    ensures r.Some? ==> (r.value.Some? <==> NonBlankText(f, k))
  {
    if k in f then Some(TrimmedOrNull(f, k)) else None
  }

  /** A nullable number of the update: written whenever the key is present, NULL when empty. */
  function NumberUpdate(f: Form, k: Field): (r: Option<Option<int>>)
    ensures r.Some? <==> k in f
    ensures r.Some? && !NonEmptyText(f, k) ==> r.value.None?
    ensures r.Some? && NonEmptyText(f, k) ==> r.value == ParseInt(TextOf(f, k).value)
  {
    if k in f then Some(if NonEmptyText(f, k) then ParseInt(TextOf(f, k).value) else None) else None
  }

  /** The date of the update: written whenever the key is present, NULL when empty. */
  function DateUpdate(f: Form, k: Field, parseDate: DateParser): (r: Option<Option<int>>)
    ensures r.Some? <==> k in f
    ensures r.Some? && !NonEmptyText(f, k) ==> r.value.None?
    ensures r.Some? && NonEmptyText(f, k) ==> r.value == parseDate(TextOf(f, k).value)
  {
    if k in f then Some(if NonEmptyText(f, k) then parseDate(TextOf(f, k).value) else None) else None
  }

  /**
   * The `updates` object of `handleUpdate` for a form that passes the field checks:
   * `updatedAt` always, never the column or the position, and any other field only
   * when the form has its key. A blank currency is not written.
   */
  function PatchFromForm(f: Form, now: int, parseDate: DateParser): (p: AppPatch)
    ensures p.columnId.None? && p.position.None? && p.updatedAt == Some(now)
    ensures Company !in f ==> p.company.None?
    ensures Role !in f ==> p.role.None?
    ensures Url !in f ==> p.url.None?
    ensures DateApplied !in f ==> p.dateApplied.None?
    ensures SalaryMin !in f ==> p.salaryMin.None?
    ensures SalaryMax !in f ==> p.salaryMax.None?
    ensures SalaryCurrency !in f ==> p.salaryCurrency.None?
    ensures Notes !in f ==> p.notes.None?
  {
    AppPatch(
      None,
      TrimmedOrNull(f, Company),
      TrimmedOrNull(f, Role),
      NullableTextUpdate(f, Url),
      DateUpdate(f, DateApplied, parseDate),
      NumberUpdate(f, SalaryMin),
      NumberUpdate(f, SalaryMax),
      TrimmedOrNull(f, SalaryCurrency),
      NullableTextUpdate(f, Notes),
      None,
      Some(now))
  }

  /** `if (formData.has(k)) { v = formData.get(k); if (typeof v !== "string" || !v.trim()) return 400; ... }`. */
  method ReadTextUpdate(f: Form, k: Field, message: Message) returns (err: Option<Response>, v: Option<string>)
    ensures err.Some? <==> k in f && !NonBlankText(f, k)
    ensures err.Some? ==> err.value == Rejected(400, message)
    ensures err.None? ==> v == TrimmedOrNull(f, k)
  {
    err, v := None, None;
    if k in f {
      if !NonBlankText(f, k) {
        err := Some(Rejected(400, message));
      } else {
        v := Some(Trim(TextOf(f, k).value));
      }
    }
  }

  /** The `formData.has(k)` block of a date field. */
  method ReadDateUpdate(f: Form, k: Field, parseDate: DateParser) returns (err: Option<Response>, v: Option<Option<int>>)
    ensures err.Some? <==> k in f && DateField(f, k, parseDate).Failure?
    ensures err.Some? ==> err.value == Rejected(400, InvalidDate)
    ensures err.None? ==> v == DateUpdate(f, k, parseDate)
  {
    err, v := None, None;
    if k in f {
      var d;
      err, d := ReadDate(f, k, parseDate);
      v := Some(d);
    }
  }

  /** The `formData.has(k)` block of a salary field. */
  method ReadNumberUpdate(f: Form, k: Field, message: Message) returns (err: Option<Response>, v: Option<Option<int>>)
    ensures err.Some? <==> k in f && SalaryField(f, k).Failure?
    ensures err.Some? ==> err.value == Rejected(400, message)
    ensures err.None? ==> v == NumberUpdate(f, k)
  {
    err, v := None, None;
    if k in f {
      var n;
      err, n := ReadNumber(f, k, message);
      v := Some(n);
    }
  }

  /** The `updates` object is built field by field, returning at the first bad field. */
  method BuildUpdates(f: Form, now: int, parseDate: DateParser) returns (res: Result<AppPatch, Response>)
    ensures FieldRejection(f, parseDate).Some? ==> res == Failure(FieldRejection(f, parseDate).value)
    ensures FieldRejection(f, parseDate).None? ==> res == Success(PatchFromForm(f, now, parseDate))
  {
    var err, company := ReadTextUpdate(f, Company, CompanyEmpty);
    if err.Some? {
      return Failure(err.value);
    }
    var role;
    err, role := ReadTextUpdate(f, Role, RoleEmpty);
    if err.Some? {
      return Failure(err.value);
    }
    var url := NullableTextUpdate(f, Url);
    var dateApplied;
    err, dateApplied := ReadDateUpdate(f, DateApplied, parseDate);
    if err.Some? {
      return Failure(err.value);
    }
    var salaryMin, salaryMax;
    err, salaryMin := ReadNumberUpdate(f, SalaryMin, SalaryMinNotNumber);
    if err.Some? {
      return Failure(err.value);
    }
    err, salaryMax := ReadNumberUpdate(f, SalaryMax, SalaryMaxNotNumber);
    if err.Some? {
      return Failure(err.value);
    }
    var salaryCurrency := TrimmedOrNull(f, SalaryCurrency);
    var notes := NullableTextUpdate(f, Notes);
    return Success(AppPatch(None, company, role, url, dateApplied, salaryMin, salaryMax,
                            salaryCurrency, notes, None, Some(now)));
  }

  /** The salaries the row would hold after the update: the new value where the form
      gives one, the stored value otherwise. */
  predicate EffectiveSalaryInverted(p: AppPatch, stored: AppRow) {
    SalaryInverted(p.salaryMin.GetOr(stored.salaryMin), p.salaryMax.GetOr(stored.salaryMax))
  }

  /** The first check of `handleUpdate` that the request fails. */
  function UpdateRejection(t: Tables, userId: Id, f: Form, now: int, parseDate: DateParser): Option<Response> {
    if TextOf(f, ApplicationId).None? then Some(Rejected(400, ApplicationIdRequired))
    else if !OwnsApp(t, userId, TextOf(f, ApplicationId).value) then Some(Rejected(404, ApplicationNotFound))
    else if FieldRejection(f, parseDate).Some? then FieldRejection(f, parseDate)
    else if EffectiveSalaryInverted(PatchFromForm(f, now, parseDate), t.apps[TextOf(f, ApplicationId).value]) then
      Some(Rejected(400, SalaryRange))
    else None
  }

  /** The patch an accepted update writes keeps the row in its column at its position,
      never writes an empty company or role, and never stores a minimum salary above
      the maximum. */
  lemma AcceptedUpdatePatch(t: Tables, userId: Id, f: Form, now: int, parseDate: DateParser)
    requires UpdateRejection(t, userId, f, now, parseDate).None?
    ensures var a := t.apps[TextOf(f, ApplicationId).value];
      var a' := ApplyAppPatch(a, PatchFromForm(f, now, parseDate));
      && a'.columnId == a.columnId && a'.position == a.position
      && (a'.company == a.company || a'.company != [])
      && (a'.role == a.role || a'.role != [])
      && !SalaryInverted(a'.salaryMin, a'.salaryMax)
      && a'.updatedAt == now
  {
  }

  /** An UPDATE that sets neither the column nor the position leaves every column's
      order and density as they were. */
  lemma UpdateKeepsColumns(t: Tables, id: Id, p: AppPatch, c: Id)
    requires p.columnId.None? && p.position.None?
    ensures ColumnOrder(Apply(t, UpdateApp(id, p)), c) == ColumnOrder(t, c)
    ensures ColumnDense(Apply(t, UpdateApp(id, p)), c) == ColumnDense(t, c)
  {
    var t' := Apply(t, UpdateApp(id, p));
    if id in t.apps {
      var a := ApplyAppPatch(t.apps[id], p);
      assert t' == t.(apps := t.apps[id := a]);
      assert a.columnId == t.apps[id].columnId && a.position == t.apps[id].position;
    }
    assert forall x | x in t.apps :: t'.apps[x].columnId == t.apps[x].columnId && t'.apps[x].position == t.apps[x].position;
    ColumnOrderFrame(t, t', c);
    var o := ColumnOrder(t, c);
    assert forall i | 0 <= i < |o| :: AppPosition(t'.apps)(o[i]) == AppPosition(t.apps)(o[i]);
  }

  /** Replacing one application row by one with the same owner and column and ordered
      salaries keeps the row invariants. */
  lemma ReplaceAppRowInvariants(t: Tables, t': Tables, id: Id, a: AppRow)
    requires id in t.apps && t' == t.(apps := t.apps[id := a])
    requires a.userId == t.apps[id].userId && a.columnId == t.apps[id].columnId
    requires !SalaryInverted(a.salaryMin, a.salaryMax)
    ensures ColumnsReferenced(t) ==> ColumnsReferenced(t')
    ensures ColumnsOwned(t) ==> ColumnsOwned(t')
    ensures SalariesOrdered(t) ==> SalariesOrdered(t')
  {
    if ColumnsOwned(t) {
      forall x | x in t'.apps ensures OwnsColumn(t', t'.apps[x].userId, t'.apps[x].columnId) {
        assert OwnsColumn(t, t.apps[x].userId, t.apps[x].columnId);
      }
    }
  }

  /** The UPDATE of an accepted `handleUpdate` keeps every column's order and the
      invariants. */
  lemma UpdateStmtEffect(t: Tables, id: Id, p: AppPatch)
    requires WellFormed(t) && id in t.apps && p.columnId.None? && p.position.None?
    requires !SalaryInverted(ApplyAppPatch(t.apps[id], p).salaryMin, ApplyAppPatch(t.apps[id], p).salaryMax)
    ensures Apply(t, UpdateApp(id, p)) == t.(apps := t.apps[id := ApplyAppPatch(t.apps[id], p)])
    ensures var t' := Apply(t, UpdateApp(id, p));
      && WellFormed(t')
      && (forall c :: ColumnOrder(t', c) == ColumnOrder(t, c))
      && (BoardDense(t) ==> BoardDense(t'))
      && (ColumnsReferenced(t) ==> ColumnsReferenced(t'))
      && (ColumnsOwned(t) ==> ColumnsOwned(t'))
      && (SalariesOrdered(t) ==> SalariesOrdered(t'))
  {
    ApplyWellFormed(t, UpdateApp(id, p));
    var a := ApplyAppPatch(t.apps[id], p);
    ReplaceAppRowInvariants(t, Apply(t, UpdateApp(id, p)), id, a);
    forall c ensures ColumnOrder(Apply(t, UpdateApp(id, p)), c) == ColumnOrder(t, c) {
      UpdateKeepsColumns(t, id, p, c);
    }
    if BoardDense(t) {
      forall c ensures ColumnDense(Apply(t, UpdateApp(id, p)), c) {
        UpdateKeepsColumns(t, id, p, c);
      }
    }
  }

  /** `handleUpdate`. */
  method HandleUpdate(db: Board, userId: Id, f: Form, now: int, parseDate: DateParser) returns (r: Response)
    requires db.Valid()
    modifies db
    ensures db.Valid()
    ensures UpdateRejection(old(db.Snapshot()), userId, f, now, parseDate).Some? ==>
      r == UpdateRejection(old(db.Snapshot()), userId, f, now, parseDate).value && db.Snapshot() == old(db.Snapshot())
    ensures UpdateRejection(old(db.Snapshot()), userId, f, now, parseDate).None? ==>
      var id := TextOf(f, ApplicationId).value;
      && r == Ok
      && db.Snapshot() == old(db.Snapshot()).(apps := old(db.apps)[id := ApplyAppPatch(old(db.apps)[id], PatchFromForm(f, now, parseDate))])
    ensures forall c :: ColumnOrder(db.Snapshot(), c) == ColumnOrder(old(db.Snapshot()), c)
    ensures old(BoardDense(db.Snapshot())) ==> BoardDense(db.Snapshot())
    ensures old(ColumnsReferenced(db.Snapshot())) ==> ColumnsReferenced(db.Snapshot())
    ensures old(ColumnsOwned(db.Snapshot())) ==> ColumnsOwned(db.Snapshot())
    ensures old(SalariesOrdered(db.Snapshot())) ==> SalariesOrdered(db.Snapshot())
  {
    var t0 := db.Snapshot();
    var applicationId := TextOf(f, ApplicationId);
    if applicationId.None? {
      return Rejected(400, ApplicationIdRequired);
    }
    var id := applicationId.value;
    if !(id in db.apps && db.apps[id].userId == userId) {
      return Rejected(404, ApplicationNotFound);
    }
    var stored := db.apps[id];
    var built := BuildUpdates(f, now, parseDate);
    if built.Failure? {
      assert UpdateRejection(t0, userId, f, now, parseDate) == Some(built.error);
      return built.error;
    }
    var updates := built.value;
    assert updates == PatchFromForm(f, now, parseDate);
    var effectiveMin := if updates.salaryMin.Some? then updates.salaryMin.value else stored.salaryMin;
    var effectiveMax := if updates.salaryMax.Some? then updates.salaryMax.value else stored.salaryMax;
    if SalaryInverted(effectiveMin, effectiveMax) {
      assert UpdateRejection(t0, userId, f, now, parseDate) == Some(Rejected(400, SalaryRange));
      return Rejected(400, SalaryRange);
    }
    assert UpdateRejection(t0, userId, f, now, parseDate).None?;
    UpdateStmtEffect(t0, id, updates);
    db.Exec(UpdateApp(id, updates));
    assert db.Snapshot() == t0.(apps := t0.apps[id := ApplyAppPatch(stored, updates)]);
    r := Ok;
  }

  // ---------------------------------------------------------------------------
  // delete

  /** The first check of `handleDelete` that the request fails. */
  function DeleteRejection(t: Tables, userId: Id, f: Form): Option<Response> {
    if TextOf(f, ApplicationId).None? then Some(Rejected(400, ApplicationIdRequired))
    else if !OwnsApp(t, userId, TextOf(f, ApplicationId).value) then Some(Rejected(404, ApplicationNotFound))
    else None
  }

  /** The DELETE of `handleDelete`: the row and its cascaded rows go, its column loses it,
      and every other column reads as before. */
  lemma DeleteStmtEffect(t0: Tables, id: Id)
    requires WellFormed(t0) && id in t0.apps
    ensures var t1 := Apply(t0, DeleteApp(id));
      var col := t0.apps[id].columnId;
      && WellFormed(t1)
      && t1 == t0.(apps := t0.apps - {id}, appOrder := RemoveAll(t0.appOrder, id),
                   contacts := CascadeContacts(t0.contacts, id),
                   transitions := CascadeTransitions(t0.transitions, id))
      && ColumnOrder(t1, col) == RemoveAll(ColumnOrder(t0, col), id)
      && (forall c | c != col :: ColumnOrder(t1, c) == ColumnOrder(t0, c) && ColumnDense(t1, c) == ColumnDense(t0, c))
  {
    var col := t0.apps[id].columnId;
    var t1 := t0.(apps := t0.apps - {id}, appOrder := RemoveAll(t0.appOrder, id),
                  contacts := CascadeContacts(t0.contacts, id),
                  transitions := CascadeTransitions(t0.transitions, id));
    assert t1 == Apply(t0, DeleteApp(id));
    ApplyWellFormed(t0, DeleteApp(id));
    DeleteAppColumnOrder(t0, id, col);
    forall c | c != col
      ensures ColumnOrder(Apply(t0, DeleteApp(id)), c) == ColumnOrder(t0, c)
      ensures ColumnDense(Apply(t0, DeleteApp(id)), c) == ColumnDense(t0, c)
    {
      DeleteAppOtherColumn(t0, id, c);
    }
  }

  /** The database after `handleDelete`'s DELETE and its renumbering batch. */
  function DeleteResult(t0: Tables, id: Id): Tables {
    var t1 := Apply(t0, DeleteApp(id));
    Run(t1, RenumberApps(ColumnOrder(t1, if id in t0.apps then t0.apps[id].columnId else id)))
  }

  /** What deleting an owned application does to the tables. */
  lemma DeleteEffect(t0: Tables, id: Id)
    requires WellFormed(t0) && id in t0.apps
    ensures var t := DeleteResult(t0, id);
      var col := t0.apps[id].columnId;
      && WellFormed(t)
      && t.apps.Keys == t0.apps.Keys - {id}
      && t.appOrder == RemoveAll(t0.appOrder, id)
      && (forall x | x in t.apps :: t.apps[x] == t0.apps[x].(position := t.apps[x].position))
      && (forall x | x in t.apps && t0.apps[x].columnId != col :: t.apps[x] == t0.apps[x])
      && t.columns == t0.columns && t.colOrder == t0.colOrder
      && t.contacts == CascadeContacts(t0.contacts, id)
      && t.transitions == CascadeTransitions(t0.transitions, id)
      && ColumnOrder(t, col) == RemoveAll(ColumnOrder(t0, col), id)
      && ColumnDense(t, col)
      && (forall c | c != col :: ColumnOrder(t, c) == ColumnOrder(t0, c) && ColumnDense(t, c) == ColumnDense(t0, c))
  {
    var col := t0.apps[id].columnId;
    var t1 := Apply(t0, DeleteApp(id));
    var o := ColumnOrder(t1, col);
    DeleteStmtEffect(t0, id);
    ColumnOrderMembers(t1, col);
    RenumberAppsRows(t1, o);
    RenumberAppsEffect(t1, col, o);
    var t := DeleteResult(t0, id);
    forall x | x in t.apps ensures t.apps[x] == t0.apps[x].(position := t.apps[x].position) {
      if x in o {
        var i :| 0 <= i < |o| && o[i] == x;
      }
    }
  }

  /** Deleting an application keeps the three invariants. */
  lemma DeleteInvariants(t0: Tables, id: Id)
    requires WellFormed(t0) && id in t0.apps
    ensures BoardDense(t0) ==> BoardDense(DeleteResult(t0, id))
    ensures ColumnsReferenced(t0) ==> ColumnsReferenced(DeleteResult(t0, id))
    ensures ColumnsOwned(t0) ==> ColumnsOwned(DeleteResult(t0, id))
    ensures SalariesOrdered(t0) ==> SalariesOrdered(DeleteResult(t0, id))
  {
    var t := DeleteResult(t0, id);
    DeleteEffect(t0, id);
    if BoardDense(t0) {
      forall c ensures ColumnDense(t, c) {
        assert c != t0.apps[id].columnId ==> ColumnDense(t0, c);
      }
    }
    forall x | x in t.apps ensures t.apps[x].columnId == t0.apps[x].columnId && t.apps[x].userId == t0.apps[x].userId
      && t.apps[x].salaryMin == t0.apps[x].salaryMin && t.apps[x].salaryMax == t0.apps[x].salaryMax
    {
      assert t.apps[x] == t0.apps[x].(position := t.apps[x].position);
    }
  }

  /** `handleDelete`: the row goes, with its contacts and transitions, and the rest of its
      column is renumbered 0, 1, ... in its former order. */
  method HandleDelete(db: Board, userId: Id, f: Form) returns (r: Response)
    requires db.Valid()
    modifies db
    ensures db.Valid()
    ensures DeleteRejection(old(db.Snapshot()), userId, f).Some? ==>
      r == DeleteRejection(old(db.Snapshot()), userId, f).value && db.Snapshot() == old(db.Snapshot())
    ensures DeleteRejection(old(db.Snapshot()), userId, f).None? ==>
      r == Ok && db.Snapshot() == DeleteResult(old(db.Snapshot()), TextOf(f, ApplicationId).value)
    ensures old(BoardDense(db.Snapshot())) ==> BoardDense(db.Snapshot())
    ensures old(ColumnsReferenced(db.Snapshot())) ==> ColumnsReferenced(db.Snapshot())
    ensures old(ColumnsOwned(db.Snapshot())) ==> ColumnsOwned(db.Snapshot())
    ensures old(SalariesOrdered(db.Snapshot())) ==> SalariesOrdered(db.Snapshot())
  {
    var applicationId := TextOf(f, ApplicationId);
    if applicationId.None? {
      return Rejected(400, ApplicationIdRequired);
    }
    var id := applicationId.value;
    if !(id in db.apps && db.apps[id].userId == userId) {
      return Rejected(404, ApplicationNotFound);
    }
    var col := db.apps[id].columnId;
    var t0 := db.Snapshot();
    DeleteEffect(t0, id);
    db.Exec(DeleteApp(id));
    var remainingApps := ColumnOrder(db.Snapshot(), col);
    if |remainingApps| > 0 {
      db.Batch(RenumberApps(remainingApps));
    } else {
      assert RenumberApps(remainingApps) == [];
    }
    r := Ok;
    DeleteInvariants(t0, id);
  }

  // ---------------------------------------------------------------------------
  // move

  /** The first check of `handleMove` that the request fails. */
  function MoveRejection(t: Tables, userId: Id, f: Form): Option<Response> {
    if TextOf(f, ApplicationId).None? then Some(Rejected(400, ApplicationIdRequired))
    else if TextOf(f, ToColumnId).None? then Some(Rejected(400, ToColumnIdRequired))
    else if TextOf(f, NewPosition).None? || !IsDigits(TextOf(f, NewPosition).value) then
      Some(Rejected(400, BadPosition))
    else if !OwnsApp(t, userId, TextOf(f, ApplicationId).value) then Some(Rejected(404, ApplicationNotFound))
    else if !OwnsColumn(t, userId, TextOf(f, ToColumnId).value) then Some(Rejected(404, TargetColumnNotFound))
    else None
  }

  /** The target-column statements of a cross-column move: the moved row gets its new
      column, position and `updatedAt`; every other row only its position. */
  function TargetStmts(o: seq<Id>, id: Id, to: Id, now: int): (ss: seq<Stmt>)
    ensures |ss| == |o| && OnlyAppUpdates(ss) && Targets(ss) == o
    ensures forall i | 0 <= i < |o| ::
      ss[i] == (if o[i] == id then UpdateApp(id, MovePatch(to, i, now)) else UpdateApp(o[i], PositionPatch(i)))
  {
    var ss := seq(|o|, i requires 0 <= i < |o| =>
      if o[i] == id then UpdateApp(id, MovePatch(to, i, now)) else UpdateApp(o[i], PositionPatch(i)));
    assert Targets(ss) == o;
    ss
  }

  /** The source column without the moved row, in position order. */
  function MoveSource(t: Tables, id: Id): seq<Id>
    requires id in t.apps
  {
    RemoveAll(ColumnOrder(t, t.apps[id].columnId), id)
  }

  /** The target column with the moved row spliced in at `k`, clamped. */
  function MoveTarget(t: Tables, id: Id, to: Id, k: int): seq<Id> {
    InsertAt(ColumnOrder(t, to), id, k)
  }

  /** The two lists a cross-column move renumbers hold no row twice, share no row, and
      list exactly the rest of the source column and the target column with the row. */
  lemma CrossMoveLists(t: Tables, id: Id, to: Id, k: int)
    requires WellFormed(t) && id in t.apps && t.apps[id].columnId != to
    ensures var src := MoveSource(t, id);
      var tgt := MoveTarget(t, id, to, k);
      && Distinct(src) && Distinct(tgt) && Distinct(src + tgt)
      && (forall x :: x in src <==> x != id && x in t.apps && t.apps[x].columnId == t.apps[id].columnId)
      && (forall x :: x in tgt <==> x == id || (x in t.apps && t.apps[x].columnId == to))
      && tgt[Clamp(k, 0, |ColumnOrder(t, to)|)] == id
  {
    var from := t.apps[id].columnId;
    var src := MoveSource(t, id);
    var tgt := MoveTarget(t, id, to, k);
    ColumnOrderMembers(t, from);
    ColumnOrderMembers(t, to);
    RemoveAllDistinct(ColumnOrder(t, from), id);
    InsertAtDistinct(ColumnOrder(t, to), id, k);
    forall x ensures x in tgt <==> x == id || x in ColumnOrder(t, to) {
      assert x in tgt <==> x in multiset(tgt);
      assert x in ColumnOrder(t, to) <==> x in multiset(ColumnOrder(t, to));
    }
    DistinctConcat(src, tgt);
  }

  /** The UPDATE statements of a cross-column move. */
  function CrossMoveUpdates(t: Tables, id: Id, to: Id, k: int, now: int): seq<Stmt>
    requires id in t.apps
  {
    RenumberApps(MoveSource(t, id)) + TargetStmts(MoveTarget(t, id, to, k), id, to, now)
  }

  /** The UPDATEs of a cross-column move address each row at most once, so each addressed
      row ends up with its own statement's patch applied and every other row is untouched. */
  lemma CrossMoveRun(t: Tables, id: Id, to: Id, k: int, now: int)
    requires WellFormed(t) && id in t.apps && t.apps[id].columnId != to
    ensures var upd := CrossMoveUpdates(t, id, to, k, now);
      var t1 := Run(t, upd);
      && OnlyAppUpdates(upd)
      && Targets(upd) == MoveSource(t, id) + MoveTarget(t, id, to, k)
      && WellFormed(t1)
      && t1 == t.(apps := t1.apps) && t1.apps.Keys == t.apps.Keys
      && (forall i | 0 <= i < |upd| && upd[i].appId in t.apps ::
            t1.apps[upd[i].appId] == ApplyAppPatch(t.apps[upd[i].appId], upd[i].patch))
      && (forall x | x in t.apps && x !in MoveSource(t, id) + MoveTarget(t, id, to, k) :: t1.apps[x] == t.apps[x])
  {
    var src := MoveSource(t, id);
    var tgt := MoveTarget(t, id, to, k);
    var a := RenumberApps(src);
    var b := TargetStmts(tgt, id, to, now);
    CrossMoveLists(t, id, to, k);
    TargetsAppend(a, b);
    RunAppUpdates(t, a + b);
    RunWellFormed(t, a + b);
  }

  /** The rest of the source column is numbered along its order. */
  lemma CrossMoveSourceRows(t: Tables, id: Id, to: Id, k: int, now: int)
    requires WellFormed(t) && id in t.apps && t.apps[id].columnId != to
    ensures var t1 := Run(t, CrossMoveUpdates(t, id, to, k, now));
      var src := MoveSource(t, id);
      && t1.apps.Keys == t.apps.Keys
      && forall i | 0 <= i < |src| :: src[i] in t.apps && t1.apps[src[i]] == t.apps[src[i]].(position := i)
  {
    var src := MoveSource(t, id);
    var upd := CrossMoveUpdates(t, id, to, k, now);
    CrossMoveLists(t, id, to, k);
    CrossMoveRun(t, id, to, k, now);
    assert upd == RenumberApps(src) + TargetStmts(MoveTarget(t, id, to, k), id, to, now);
    forall i | 0 <= i < |src| ensures src[i] in t.apps && upd[i] == UpdateApp(src[i], PositionPatch(i)) {
      assert src[i] in src;
      PositionPatchApply(t.apps[src[i]], i);
    }
  }

  /** The target column's other rows are numbered along the spliced list. */
  lemma CrossMoveTargetRows(t: Tables, id: Id, to: Id, k: int, now: int)
    requires WellFormed(t) && id in t.apps && t.apps[id].columnId != to
    ensures var t1 := Run(t, CrossMoveUpdates(t, id, to, k, now));
      var tgt := MoveTarget(t, id, to, k);
      && t1.apps.Keys == t.apps.Keys
      && forall i | 0 <= i < |tgt| :: tgt[i] in t.apps && (tgt[i] != id ==> t1.apps[tgt[i]] == t.apps[tgt[i]].(position := i))
  {
    var src := MoveSource(t, id);
    var tgt := MoveTarget(t, id, to, k);
    var upd := CrossMoveUpdates(t, id, to, k, now);
    var b := TargetStmts(tgt, id, to, now);
    var t1 := Run(t, upd);
    var a := RenumberApps(src);
    CrossMoveLists(t, id, to, k);
    CrossMoveRun(t, id, to, k, now);
    assert upd == a + b;
    forall i | 0 <= i < |tgt|
      ensures tgt[i] in t.apps && (tgt[i] != id ==> t1.apps[tgt[i]] == t.apps[tgt[i]].(position := i))
    {
      assert tgt[i] in tgt;
      AppendIndexRight(a, b, i);
      if tgt[i] != id {
        PositionPatchApply(t.apps[tgt[i]], i);
      }
    }
  }

  /** The moved row takes the target column, the clamped position and `updatedAt = now`. */
  lemma CrossMoveMovedRow(t: Tables, id: Id, to: Id, k: int, now: int)
    requires WellFormed(t) && id in t.apps && t.apps[id].columnId != to
    ensures Run(t, CrossMoveUpdates(t, id, to, k, now)).apps.Keys == t.apps.Keys
    ensures Run(t, CrossMoveUpdates(t, id, to, k, now)).apps[id] ==
      t.apps[id].(columnId := to, position := Clamp(k, 0, |ColumnOrder(t, to)|), updatedAt := now)
  {
    var src := MoveSource(t, id);
    var tgt := MoveTarget(t, id, to, k);
    var upd := CrossMoveUpdates(t, id, to, k, now);
    var b := TargetStmts(tgt, id, to, now);
    var ci := Clamp(k, 0, |ColumnOrder(t, to)|);
    var a := RenumberApps(src);
    CrossMoveLists(t, id, to, k);
    CrossMoveRun(t, id, to, k, now);
    assert upd == a + b;
    AppendIndexRight(a, b, ci);
    assert upd[|src| + ci] == UpdateApp(id, MovePatch(to, ci, now));
    MovePatchApply(t.apps[id], to, ci, now);
  }

  /** The rows after the UPDATEs of a cross-column move: the rest of the source column and
      the target column renumbered, the moved row in its new column, nothing else touched. */
  lemma CrossMoveRows(t: Tables, id: Id, to: Id, k: int, now: int)
    requires WellFormed(t) && id in t.apps && t.apps[id].columnId != to
    ensures var t1 := Run(t, CrossMoveUpdates(t, id, to, k, now));
      var src := MoveSource(t, id);
      var tgt := MoveTarget(t, id, to, k);
      && WellFormed(t1)
      && t1 == t.(apps := t1.apps) && t1.apps.Keys == t.apps.Keys
      && (forall i | 0 <= i < |src| :: src[i] in t.apps && t1.apps[src[i]] == t.apps[src[i]].(position := i))
      && (forall i | 0 <= i < |tgt| :: tgt[i] in t.apps && (tgt[i] != id ==> t1.apps[tgt[i]] == t.apps[tgt[i]].(position := i)))
      && t1.apps[id] == t.apps[id].(columnId := to, position := Clamp(k, 0, |ColumnOrder(t, to)|), updatedAt := now)
      && (forall x | x in t.apps && x !in src && x !in tgt :: t1.apps[x] == t.apps[x])
  {
    CrossMoveRun(t, id, to, k, now);
    CrossMoveSourceRows(t, id, to, k, now);
    CrossMoveTargetRows(t, id, to, k, now);
    CrossMoveMovedRow(t, id, to, k, now);
  }

  /** After the UPDATEs of a cross-column move, every row other than the moved one keeps
      its column and its other fields; only its position may change. */
  lemma CrossMoveOtherRows(t: Tables, id: Id, to: Id, k: int, now: int)
    requires WellFormed(t) && id in t.apps && t.apps[id].columnId != to
    ensures var t1 := Run(t, CrossMoveUpdates(t, id, to, k, now));
      && t1.apps.Keys == t.apps.Keys
      && forall x | x in t.apps && x != id :: t1.apps[x] == t.apps[x].(position := t1.apps[x].position)
  {
    var t1 := Run(t, CrossMoveUpdates(t, id, to, k, now));
    var src := MoveSource(t, id);
    var tgt := MoveTarget(t, id, to, k);
    CrossMoveRows(t, id, to, k, now);
    forall x | x in t.apps && x != id ensures t1.apps[x] == t.apps[x].(position := t1.apps[x].position) {
      if x in src {
        var i :| 0 <= i < |src| && src[i] == x;
      } else if x in tgt {
        var i :| 0 <= i < |tgt| && tgt[i] == x;
      }
    }
  }

  /** After the UPDATEs of a cross-column move, the source column reads as the rest of
      its rows and the target column as the spliced list, both densely numbered. */
  lemma CrossMoveColumns(t: Tables, id: Id, to: Id, k: int, now: int)
    requires WellFormed(t) && id in t.apps && t.apps[id].columnId != to
    ensures var t1 := Run(t, CrossMoveUpdates(t, id, to, k, now));
      && ColumnOrder(t1, t.apps[id].columnId) == MoveSource(t, id) && ColumnDense(t1, t.apps[id].columnId)
      && ColumnOrder(t1, to) == MoveTarget(t, id, to, k) && ColumnDense(t1, to)
  {
    CrossMoveSourceOrder(t, id, to, k, now);
    CrossMoveTargetOrder(t, id, to, k, now);
  }

  /** The source column after a cross-column move: the rest of its rows, numbered densely. */
  lemma CrossMoveSourceOrder(t: Tables, id: Id, to: Id, k: int, now: int)
    requires WellFormed(t) && id in t.apps && t.apps[id].columnId != to
    ensures var t1 := Run(t, CrossMoveUpdates(t, id, to, k, now));
      ColumnOrder(t1, t.apps[id].columnId) == MoveSource(t, id) && ColumnDense(t1, t.apps[id].columnId)
  {
    var from := t.apps[id].columnId;
    var t1 := Run(t, CrossMoveUpdates(t, id, to, k, now));
    var src := MoveSource(t, id);
    CrossMoveLists(t, id, to, k);
    CrossMoveRun(t, id, to, k, now);
    CrossMoveSourceRows(t, id, to, k, now);
    CrossMoveMovedRow(t, id, to, k, now);
    CrossMoveOtherRows(t, id, to, k, now);
    forall x ensures x in src <==> x in t1.apps && t1.apps[x].columnId == from {
      if x in t1.apps && x != id {
        assert t1.apps[x].columnId == t.apps[x].columnId;
      }
    }
    ColumnOrderIs(t1, from, src);
  }

  /** The target column after a cross-column move: the spliced list, numbered densely. */
  lemma CrossMoveTargetOrder(t: Tables, id: Id, to: Id, k: int, now: int)
    requires WellFormed(t) && id in t.apps && t.apps[id].columnId != to
    ensures var t1 := Run(t, CrossMoveUpdates(t, id, to, k, now));
      ColumnOrder(t1, to) == MoveTarget(t, id, to, k) && ColumnDense(t1, to)
  {
    var t1 := Run(t, CrossMoveUpdates(t, id, to, k, now));
    CrossMoveLists(t, id, to, k);
    CrossMoveRun(t, id, to, k, now);
    CrossMoveTargetMembers(t, id, to, k, now);
    CrossMoveTargetPositions(t, id, to, k, now);
    ColumnOrderIs(t1, to, MoveTarget(t, id, to, k));
  }

  /** After a cross-column move, the target column holds exactly the spliced list. */
  lemma CrossMoveTargetMembers(t: Tables, id: Id, to: Id, k: int, now: int)
    requires WellFormed(t) && id in t.apps && t.apps[id].columnId != to
    ensures var t1 := Run(t, CrossMoveUpdates(t, id, to, k, now));
      forall x :: x in MoveTarget(t, id, to, k) <==> x in t1.apps && t1.apps[x].columnId == to
  {
    var t1 := Run(t, CrossMoveUpdates(t, id, to, k, now));
    var tgt := MoveTarget(t, id, to, k);
    CrossMoveLists(t, id, to, k);
    CrossMoveMovedRow(t, id, to, k, now);
    CrossMoveOtherRows(t, id, to, k, now);
    forall x ensures x in tgt <==> x in t1.apps && t1.apps[x].columnId == to {
      if x in t1.apps && x != id {
        assert t1.apps[x].columnId == t.apps[x].columnId;
      }
    }
  }

  /** After a cross-column move, each row of the spliced list sits at its index. */
  lemma CrossMoveTargetPositions(t: Tables, id: Id, to: Id, k: int, now: int)
    requires WellFormed(t) && id in t.apps && t.apps[id].columnId != to
    ensures var t1 := Run(t, CrossMoveUpdates(t, id, to, k, now));
      var tgt := MoveTarget(t, id, to, k);
      forall i | 0 <= i < |tgt| :: tgt[i] in t1.apps && t1.apps[tgt[i]].position == i
  {
    var t1 := Run(t, CrossMoveUpdates(t, id, to, k, now));
    var tgt := MoveTarget(t, id, to, k);
    var ci := Clamp(k, 0, |ColumnOrder(t, to)|);
    CrossMoveLists(t, id, to, k);
    CrossMoveTargetRows(t, id, to, k, now);
    CrossMoveMovedRow(t, id, to, k, now);
    forall i | 0 <= i < |tgt| ensures tgt[i] in t1.apps && t1.apps[tgt[i]].position == i {
      if tgt[i] == id {
        DistinctIndex(tgt, i, ci);
      }
    }
  }

  /** After the UPDATEs of a cross-column move, every other column reads as before. */
  lemma CrossMoveOtherColumns(t: Tables, id: Id, to: Id, k: int, now: int, c: Id)
    requires WellFormed(t) && id in t.apps && t.apps[id].columnId != to
    requires c != t.apps[id].columnId && c != to
    ensures var t1 := Run(t, CrossMoveUpdates(t, id, to, k, now));
      && ColumnOrder(t1, c) == ColumnOrder(t, c)
      && ColumnDense(t1, c) == ColumnDense(t, c)
  {
    var t1 := Run(t, CrossMoveUpdates(t, id, to, k, now));
    CrossMoveLists(t, id, to, k);
    CrossMoveRun(t, id, to, k, now);
    CrossMoveSourceColumn(t, id, to, k, now);
    CrossMoveTargetColumn(t, id, to, k, now);
    ColumnUntouched(t, t1, c);
  }

  /** After the UPDATEs of a cross-column move, the rest of the source column is still
      there. */
  lemma CrossMoveSourceColumn(t: Tables, id: Id, to: Id, k: int, now: int)
    requires WellFormed(t) && id in t.apps && t.apps[id].columnId != to
    ensures var t1 := Run(t, CrossMoveUpdates(t, id, to, k, now));
      && t1.apps.Keys == t.apps.Keys
      && forall x | x in MoveSource(t, id) :: x in t.apps && t1.apps[x].columnId == t.apps[id].columnId
  {
    var t1 := Run(t, CrossMoveUpdates(t, id, to, k, now));
    var src := MoveSource(t, id);
    CrossMoveLists(t, id, to, k);
    CrossMoveSourceRows(t, id, to, k, now);
    forall x | x in src ensures x in t.apps && t1.apps[x].columnId == t.apps[id].columnId {
      var i := IndexOf(src, x);
    }
  }

  /** After the UPDATEs of a cross-column move, every row of the spliced list sits in the
      target column. */
  lemma CrossMoveTargetColumn(t: Tables, id: Id, to: Id, k: int, now: int)
    requires WellFormed(t) && id in t.apps && t.apps[id].columnId != to
    ensures var t1 := Run(t, CrossMoveUpdates(t, id, to, k, now));
      && t1.apps.Keys == t.apps.Keys
      && forall x | x in MoveTarget(t, id, to, k) :: x in t.apps && t1.apps[x].columnId == to
  {
    var t1 := Run(t, CrossMoveUpdates(t, id, to, k, now));
    var tgt := MoveTarget(t, id, to, k);
    CrossMoveLists(t, id, to, k);
    CrossMoveTargetRows(t, id, to, k, now);
    CrossMoveMovedRow(t, id, to, k, now);
    forall x | x in tgt ensures x in t.apps && t1.apps[x].columnId == to {
      if x != id {
        var i := IndexOf(tgt, x);
        assert t1.apps[tgt[i]] == t.apps[tgt[i]].(position := i);
        assert t.apps[x].columnId == to;
      }
    }
  }

  /** What the whole batch of a cross-column move does: `CrossMoveUpdates` and then the
      transition insert. */
  lemma CrossMoveEffect(t: Tables, id: Id, to: Id, k: int, now: int, tr: TransitionRow)
    requires WellFormed(t) && id in t.apps && t.apps[id].columnId != to
    ensures var t' := Run(t, CrossMoveUpdates(t, id, to, k, now) + [InsertTransition(tr)]);
      var from := t.apps[id].columnId;
      && WellFormed(t')
      && t' == t.(apps := t'.apps, transitions := t.transitions + [tr])
      && t'.apps.Keys == t.apps.Keys
      && t'.apps[id] == t.apps[id].(columnId := to, position := Clamp(k, 0, |ColumnOrder(t, to)|), updatedAt := now)
      && (forall x | x in t.apps && x != id :: t'.apps[x] == t.apps[x].(position := t'.apps[x].position))
      && ColumnOrder(t', from) == RemoveAll(ColumnOrder(t, from), id) && ColumnDense(t', from)
      && ColumnOrder(t', to) == InsertAt(ColumnOrder(t, to), id, k) && ColumnDense(t', to)
      && (forall c | c != from && c != to :: ColumnOrder(t', c) == ColumnOrder(t, c) && ColumnDense(t', c) == ColumnDense(t, c))
  {
    var upd := CrossMoveUpdates(t, id, to, k, now);
    var t1 := Run(t, upd);
    RunSnoc(t, upd, InsertTransition(tr));
    var t' := t1.(transitions := t1.transitions + [tr]);
    ApplyInsertTransition(t1, tr);
    CrossMoveRows(t, id, to, k, now);
    CrossMoveOtherRows(t, id, to, k, now);
    CrossMoveColumns(t, id, to, k, now);
    AppsFrame(t1, t');
    forall c | c != t.apps[id].columnId && c != to
      ensures ColumnOrder(t1, c) == ColumnOrder(t, c) && ColumnDense(t1, c) == ColumnDense(t, c)
    {
      CrossMoveOtherColumns(t, id, to, k, now, c);
    }
  }

  /** The column order after a move within the column: the row taken out of its index
      and put back at `k`, clamped to the last index. */
  function SameMoveOrder(t: Tables, id: Id, k: int): seq<Id>
    requires id in t.apps
  {
    var s := ColumnOrder(t, t.apps[id].columnId);
    var i := FindIndex(s, id);
    if i < 0 then s else Reorder(s, i, k)
  }

  /** The reordered column holds exactly the rows of the column, once each, with the moved
      row at the clamped index. */
  lemma SameMoveLists(t: Tables, id: Id, k: int)
    requires WellFormed(t) && id in t.apps
    ensures var c := t.apps[id].columnId;
      var s := ColumnOrder(t, c);
      var o := SameMoveOrder(t, id, k);
      && 0 <= FindIndex(s, id)
      && o == Reorder(s, FindIndex(s, id), k)
      && Distinct(o)
      && (forall x :: x in o <==> x in t.apps && t.apps[x].columnId == c)
      && o[Clamp(k, 0, |s| - 1)] == id
  {
    var c := t.apps[id].columnId;
    ColumnOrderMembers(t, c);
    ReorderMember(ColumnOrder(t, c), id, k);
  }

  /** A move within one column: the rows of the column are renumbered in the reordered
      list, the column stays dense, and nothing else changes. */
  lemma SameMoveEffect(t: Tables, id: Id, k: int)
    requires WellFormed(t) && id in t.apps
    ensures var c := t.apps[id].columnId;
      var o := SameMoveOrder(t, id, k);
      var t' := Run(t, RenumberApps(o));
      && WellFormed(t')
      && t' == t.(apps := t'.apps) && t'.apps.Keys == t.apps.Keys
      && t'.apps[id] == t.apps[id].(position := Clamp(k, 0, |ColumnOrder(t, c)| - 1))
      && (forall x | x in t.apps :: t'.apps[x] == t.apps[x].(position := t'.apps[x].position))
      && ColumnOrder(t', c) == o && ColumnDense(t', c)
      && (forall c' | c' != c :: ColumnOrder(t', c') == ColumnOrder(t, c') && ColumnDense(t', c') == ColumnDense(t, c'))
  {
    var c := t.apps[id].columnId;
    var o := SameMoveOrder(t, id, k);
    SameMoveLists(t, id, k);
    RenumberAppsRows(t, o);
    RenumberAppsEffect(t, c, o);
    var t' := Run(t, RenumberApps(o));
    forall x | x in t.apps ensures t'.apps[x] == t.apps[x].(position := t'.apps[x].position) {
      if x in o {
        var j := IndexOf(o, x);
      }
    }
  }

  /** The batch `handleMove` sends for moving `id` to position `k` of column `to`. */
  function MoveStmts(t: Tables, id: Id, to: Id, k: int, now: int, transitionId: Id): seq<Stmt>
    requires id in t.apps
  {
    var from := t.apps[id].columnId;
    if from != to then
      CrossMoveUpdates(t, id, to, k, now) + [InsertTransition(TransitionRow(transitionId, id, Some(from), to, now))]
    else
      RenumberApps(SameMoveOrder(t, id, k))
  }

  /** What an accepted move does to the store: only positions change, apart from the
      moved row's column and `updatedAt` and the new transition; the columns it leaves and
      enters end up densely numbered, and every other column reads as before. */
  ghost predicate MoveEffect(t0: Tables, t: Tables, id: Id, to: Id, k: int, now: int, transitionId: Id) {
    && id in t0.apps
    && var from := t0.apps[id].columnId;
    && t.apps.Keys == t0.apps.Keys && t.appOrder == t0.appOrder
    && t.columns == t0.columns && t.colOrder == t0.colOrder && t.contacts == t0.contacts
    && (forall x | x in t0.apps && x != id :: t.apps[x] == t0.apps[x].(position := t.apps[x].position))
    && (forall c | c != from && c != to :: ColumnOrder(t, c) == ColumnOrder(t0, c) && ColumnDense(t, c) == ColumnDense(t0, c))
    && if from != to then
         && t.apps[id] == t0.apps[id].(columnId := to, position := Clamp(k, 0, |ColumnOrder(t0, to)|), updatedAt := now)
         && t.transitions == t0.transitions + [TransitionRow(transitionId, id, Some(from), to, now)]
         && ColumnOrder(t, from) == RemoveAll(ColumnOrder(t0, from), id) && ColumnDense(t, from)
         && ColumnOrder(t, to) == InsertAt(ColumnOrder(t0, to), id, k) && ColumnDense(t, to)
       else
         && t.apps[id] == t0.apps[id].(position := Clamp(k, 0, |ColumnOrder(t0, to)| - 1))
         && t.transitions == t0.transitions
         && var i := FindIndex(ColumnOrder(t0, to), id);
         && 0 <= i
         && ColumnOrder(t, to) == Reorder(ColumnOrder(t0, to), i, k) && ColumnDense(t, to)
  }

  /** The batch of a cross-column move has the effect `MoveEffect` describes. */
  lemma CrossMoveStmtsEffect(t0: Tables, id: Id, to: Id, k: int, now: int, transitionId: Id)
    requires WellFormed(t0) && id in t0.apps && t0.apps[id].columnId != to
    ensures MoveEffect(t0, Run(t0, MoveStmts(t0, id, to, k, now, transitionId)), id, to, k, now, transitionId)
  {
    CrossMoveEffect(t0, id, to, k, now, TransitionRow(transitionId, id, Some(t0.apps[id].columnId), to, now));
  }

  /** A state that differs from `t0` only by the renumbering of a move within column `to`
      has the shape `MoveEffect` describes. */
  lemma SameMoveShape(t0: Tables, t: Tables, id: Id, to: Id, k: int, now: int, transitionId: Id)
    requires id in t0.apps && t0.apps[id].columnId == to
    requires t == t0.(apps := t.apps) && t.apps.Keys == t0.apps.Keys
    requires t.apps[id] == t0.apps[id].(position := Clamp(k, 0, |ColumnOrder(t0, to)| - 1))
    requires forall x | x in t0.apps :: t.apps[x] == t0.apps[x].(position := t.apps[x].position)
    requires 0 <= FindIndex(ColumnOrder(t0, to), id)
    requires ColumnOrder(t, to) == Reorder(ColumnOrder(t0, to), FindIndex(ColumnOrder(t0, to), id), k)
    requires ColumnDense(t, to)
    requires forall c' | c' != to :: ColumnOrder(t, c') == ColumnOrder(t0, c') && ColumnDense(t, c') == ColumnDense(t0, c')
    ensures MoveEffect(t0, t, id, to, k, now, transitionId)
  {
  }

  /** The batch of a move within one column has the effect `MoveEffect` describes. */
  lemma SameMoveStmtsEffect(t0: Tables, id: Id, to: Id, k: int, now: int, transitionId: Id)
    requires WellFormed(t0) && id in t0.apps && t0.apps[id].columnId == to
    ensures MoveEffect(t0, Run(t0, MoveStmts(t0, id, to, k, now, transitionId)), id, to, k, now, transitionId)
  {
    var o := SameMoveOrder(t0, id, k);
    assert MoveStmts(t0, id, to, k, now, transitionId) == RenumberApps(o);
    var t := Run(t0, RenumberApps(o));
    assert MoveEffect(t0, t, id, to, k, now, transitionId) by {
      SameMoveLists(t0, id, k);
      SameMoveEffect(t0, id, k);
      SameMoveShape(t0, t, id, to, k, now, transitionId);
    }
  }

  /** The batch of `handleMove` keeps the store well formed and has the effect
      `MoveEffect` describes. */
  lemma MoveStmtsEffect(t0: Tables, id: Id, to: Id, k: int, now: int, transitionId: Id)
    requires WellFormed(t0) && id in t0.apps
    ensures WellFormed(Run(t0, MoveStmts(t0, id, to, k, now, transitionId)))
    ensures MoveEffect(t0, Run(t0, MoveStmts(t0, id, to, k, now, transitionId)), id, to, k, now, transitionId)
  {
    RunWellFormed(t0, MoveStmts(t0, id, to, k, now, transitionId));
    if t0.apps[id].columnId != to {
      CrossMoveStmtsEffect(t0, id, to, k, now, transitionId);
    } else {
      SameMoveStmtsEffect(t0, id, to, k, now, transitionId);
    }
  }

  /** Any change of the shape `MoveEffect` describes keeps the invariants, provided the
      target column exists, and for ownership that it belongs to the application's user. */
  lemma MoveInvariants(t0: Tables, t: Tables, id: Id, to: Id, k: int, now: int, transitionId: Id)
    requires MoveEffect(t0, t, id, to, k, now, transitionId)
    ensures BoardDense(t0) ==> BoardDense(t)
    ensures ColumnsReferenced(t0) && to in t0.columns ==> ColumnsReferenced(t)
    ensures ColumnsOwned(t0) && OwnsColumn(t0, t0.apps[id].userId, to) ==> ColumnsOwned(t)
    ensures SalariesOrdered(t0) ==> SalariesOrdered(t)
  {
    var from := t0.apps[id].columnId;
    if BoardDense(t0) {
      forall c ensures ColumnDense(t, c) {
        if c != from && c != to {
          assert ColumnDense(t0, c);
        }
      }
    }
    forall x | x in t.apps
      ensures t.apps[x].columnId == t0.apps[x].columnId || t.apps[x].columnId == to
      ensures t.apps[x].userId == t0.apps[x].userId
      ensures x != id ==> t.apps[x].columnId == t0.apps[x].columnId
      ensures t.apps[x].salaryMin == t0.apps[x].salaryMin && t.apps[x].salaryMax == t0.apps[x].salaryMax
    {
      if x != id {
        assert t.apps[x] == t0.apps[x].(position := t.apps[x].position);
      }
    }
  }

  /** `for (let i = 0; i < o.length; i++) statements.push(update ... set({ position: i }))`. */
  method RenumberLoop(o: seq<Id>) returns (statements: seq<Stmt>)
    ensures statements == RenumberApps(o)
  {
    statements := [];
    var i := 0;
    while i < |o|
      invariant 0 <= i <= |o|
      invariant |statements| == i
      invariant forall j | 0 <= j < i :: statements[j] == UpdateApp(o[j], PositionPatch(j))
    {
      statements := statements + [UpdateApp(o[i], PositionPatch(i))];
      i := i + 1;
    }
  }

  /** The loop over the target column of a cross-column move. */
  method TargetLoop(newTargetOrder: seq<Id>, id: Id, to: Id, now: int) returns (statements: seq<Stmt>)
    ensures statements == TargetStmts(newTargetOrder, id, to, now)
  {
    statements := [];
    var i := 0;
    while i < |newTargetOrder|
      invariant 0 <= i <= |newTargetOrder|
      invariant |statements| == i
      invariant forall j | 0 <= j < i :: statements[j] == TargetStmts(newTargetOrder, id, to, now)[j]
    {
      if newTargetOrder[i] == id {
        statements := statements + [UpdateApp(id, MovePatch(to, i, now))];
      } else {
        statements := statements + [UpdateApp(newTargetOrder[i], PositionPatch(i))];
      }
      i := i + 1;
    }
  }

  /** The statements of a move across columns: renumber the rest of the source column,
      renumber the target column with the row inserted, and log the transition. */
  method CrossMoveBatch(t0: Tables, id: Id, to: Id, k: int, now: int, transitionId: Id)
    returns (statements: seq<Stmt>)
    requires id in t0.apps && t0.apps[id].columnId != to
    ensures statements == MoveStmts(t0, id, to, k, now, transitionId)
  {
    var from := t0.apps[id].columnId;
    var sourceApps := ColumnOrder(t0, from);
    var filteredSourceApps := RemoveAll(sourceApps, id);
    var sourceStatements := RenumberLoop(filteredSourceApps);
    var targetApps := ColumnOrder(t0, to);
    var clampedPosition := Clamp(k, 0, |targetApps|);
    var newTargetOrder := InsertAt(targetApps, id, clampedPosition);
    assert newTargetOrder == MoveTarget(t0, id, to, k);
    var targetStatements := TargetLoop(newTargetOrder, id, to, now);
    statements := sourceStatements + targetStatements
      + [InsertTransition(TransitionRow(transitionId, id, Some(from), to, now))];
  }

  /** The statements of a move within one column: renumber the column in its new order. */
  method SameMoveBatch(t0: Tables, id: Id, k: int, now: int, transitionId: Id)
    returns (statements: seq<Stmt>)
    requires WellFormed(t0) && id in t0.apps
    ensures statements == MoveStmts(t0, id, t0.apps[id].columnId, k, now, transitionId)
  {
    var columnApps := ColumnOrder(t0, t0.apps[id].columnId);
    var currentIndex := FindIndex(columnApps, id);
    SameMoveLists(t0, id, k);
    var clampedPosition := Clamp(k, 0, |columnApps| - 1);
    var reordered := Reorder(columnApps, currentIndex, clampedPosition);
    assert reordered == SameMoveOrder(t0, id, k);
    statements := RenumberLoop(reordered);
  }

  /** The accepted part of `handleMove`: builds the batch and sends it when it is not empty. */
  method ExecMove(db: Board, id: Id, to: Id, k: int, now: int, transitionId: Id) returns (r: Response)
    requires db.Valid() && id in db.apps
    modifies db
    ensures db.Valid() && r == Ok
    ensures db.Snapshot() == Run(old(db.Snapshot()), MoveStmts(old(db.Snapshot()), id, to, k, now, transitionId))
    ensures MoveEffect(old(db.Snapshot()), db.Snapshot(), id, to, k, now, transitionId)
    ensures old(BoardDense(db.Snapshot())) ==> BoardDense(db.Snapshot())
    ensures old(ColumnsReferenced(db.Snapshot())) && to in old(db.columns) ==> ColumnsReferenced(db.Snapshot())
    ensures old(ColumnsOwned(db.Snapshot())) && old(OwnsColumn(db.Snapshot(), db.apps[id].userId, to)) ==>
      ColumnsOwned(db.Snapshot())
    ensures old(SalariesOrdered(db.Snapshot())) ==> SalariesOrdered(db.Snapshot())
  {
    var t0 := db.Snapshot();
    var statements: seq<Stmt>;
    if db.apps[id].columnId != to {
      statements := CrossMoveBatch(t0, id, to, k, now, transitionId);
    } else {
      statements := SameMoveBatch(t0, id, k, now, transitionId);
    }
    MoveStmtsEffect(t0, id, to, k, now, transitionId);
    MoveInvariants(t0, Run(t0, statements), id, to, k, now, transitionId);
    if |statements| > 0 {
      db.Batch(statements);
    }
    r := Ok;
  }

  /** `handleMove`. */
  method HandleMove(db: Board, userId: Id, f: Form, now: int, transitionId: Id) returns (r: Response)
    requires db.Valid()
    modifies db
    ensures db.Valid()
    ensures MoveRejection(old(db.Snapshot()), userId, f).Some? ==>
      r == MoveRejection(old(db.Snapshot()), userId, f).value && db.Snapshot() == old(db.Snapshot())
    ensures MoveRejection(old(db.Snapshot()), userId, f).None? ==>
      var id := TextOf(f, ApplicationId).value;
      var to := TextOf(f, ToColumnId).value;
      var k := RunValue(TextOf(f, NewPosition).value, 10);
      && r == Ok
      && db.Snapshot() == Run(old(db.Snapshot()), MoveStmts(old(db.Snapshot()), id, to, k, now, transitionId))
      && MoveEffect(old(db.Snapshot()), db.Snapshot(), id, to, k, now, transitionId)
    ensures old(BoardDense(db.Snapshot())) ==> BoardDense(db.Snapshot())
    ensures old(ColumnsReferenced(db.Snapshot())) ==> ColumnsReferenced(db.Snapshot())
    ensures old(ColumnsOwned(db.Snapshot())) ==> ColumnsOwned(db.Snapshot())
    ensures old(SalariesOrdered(db.Snapshot())) ==> SalariesOrdered(db.Snapshot())
  {
    var applicationId := TextOf(f, ApplicationId);
    var toColumnId := TextOf(f, ToColumnId);
    var newPositionStr := TextOf(f, NewPosition);
    if applicationId.None? {
      return Rejected(400, ApplicationIdRequired);
    }
    if toColumnId.None? {
      return Rejected(400, ToColumnIdRequired);
    }
    if newPositionStr.None? || !IsDigits(newPositionStr.value) {
      return Rejected(400, BadPosition);
    }
    var id := applicationId.value;
    var to := toColumnId.value;
    if !(id in db.apps && db.apps[id].userId == userId) {
      return Rejected(404, ApplicationNotFound);
    }
    if !(to in db.columns && db.columns[to].userId == userId) {
      return Rejected(404, TargetColumnNotFound);
    }
    ParseIntOfDigits(newPositionStr.value);
    var k := ParseInt(newPositionStr.value).value;

    r := ExecMove(db, id, to, k, now, transitionId);
  }

  // ---------------------------------------------------------------------------
  // dispatch

  /** The `intent` switch of the route action. An intent that names no handler is a 400
      and touches nothing. */
  method Action(db: Board, userId: Id, f: Form, now: int, appId: Id, transitionId: Id,
                parseDate: DateParser) returns (r: Response)
    requires db.Valid() && appId !in db.apps
    modifies db
    ensures db.Valid()
    ensures TextOf(f, Intent) !in {Some("create"), Some("update"), Some("delete"), Some("move")} ==>
      r == Rejected(400, UnknownIntent) && db.Snapshot() == old(db.Snapshot())
    ensures TextOf(f, Intent) == Some("create") ==>
      && (CreateRejection(old(db.Snapshot()), userId, f, parseDate).Some? ==>
            r == CreateRejection(old(db.Snapshot()), userId, f, parseDate).value && db.Snapshot() == old(db.Snapshot()))
      && (CreateRejection(old(db.Snapshot()), userId, f, parseDate).None? ==>
            r == Created(appId) && CreateEffect(old(db.Snapshot()), db.Snapshot(), userId, f, now, appId, transitionId, parseDate))
    ensures TextOf(f, Intent) == Some("update") ==>
      && (UpdateRejection(old(db.Snapshot()), userId, f, now, parseDate).Some? ==>
            r == UpdateRejection(old(db.Snapshot()), userId, f, now, parseDate).value && db.Snapshot() == old(db.Snapshot()))
      && (UpdateRejection(old(db.Snapshot()), userId, f, now, parseDate).None? ==>
            var id := TextOf(f, ApplicationId).value;
            && r == Ok
            && db.Snapshot() == old(db.Snapshot()).(apps := old(db.apps)[id := ApplyAppPatch(old(db.apps)[id], PatchFromForm(f, now, parseDate))]))
    ensures TextOf(f, Intent) == Some("delete") ==>
      && (DeleteRejection(old(db.Snapshot()), userId, f).Some? ==>
            r == DeleteRejection(old(db.Snapshot()), userId, f).value && db.Snapshot() == old(db.Snapshot()))
      && (DeleteRejection(old(db.Snapshot()), userId, f).None? ==>
            r == Ok && db.Snapshot() == DeleteResult(old(db.Snapshot()), TextOf(f, ApplicationId).value))
    ensures TextOf(f, Intent) == Some("move") ==>
      && (MoveRejection(old(db.Snapshot()), userId, f).Some? ==>
            r == MoveRejection(old(db.Snapshot()), userId, f).value && db.Snapshot() == old(db.Snapshot()))
      && (MoveRejection(old(db.Snapshot()), userId, f).None? ==>
            var id := TextOf(f, ApplicationId).value;
            var to := TextOf(f, ToColumnId).value;
            var k := RunValue(TextOf(f, NewPosition).value, 10);
            && r == Ok
            && MoveEffect(old(db.Snapshot()), db.Snapshot(), id, to, k, now, transitionId))
    ensures old(BoardDense(db.Snapshot())) ==> BoardDense(db.Snapshot())
    ensures old(ColumnsReferenced(db.Snapshot())) ==> ColumnsReferenced(db.Snapshot())
    ensures old(ColumnsOwned(db.Snapshot())) ==> ColumnsOwned(db.Snapshot())
    ensures old(SalariesOrdered(db.Snapshot())) ==> SalariesOrdered(db.Snapshot())
  {
    var intent := TextOf(f, Intent);
    match intent
    case Some("create") => r := HandleCreate(db, userId, f, now, appId, transitionId, parseDate);
    case Some("update") => r := HandleUpdate(db, userId, f, now, parseDate);
    case Some("delete") => r := HandleDelete(db, userId, f);
    case Some("move") => r := HandleMove(db, userId, f, now, transitionId);
    case _ => r := Rejected(400, UnknownIntent);
  }
}
