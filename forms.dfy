/**
 * A submitted form and the route's response. `FormData.get(k)` yields a string, a
 * `File`, or `null` when the key is absent; only the first value of a key is seen.
 */
module Forms {
  import opened Wrappers
  import opened JsText
  import opened Schema

  /** One form value: text, or an uploaded file (which is never a string). */
  datatype FormEntry = Text(text: string) | Upload

  /** The form keys the kanban routes read; keys they never read play no part. */
  datatype Field =
    | Intent | ApplicationId | ColumnId | ToColumnId | NewPosition | DestinationColumnId
    | Company | Role | Url | DateApplied | SalaryMin | SalaryMax | SalaryCurrency | Notes
    | Name | Color

  /** The key as it is written in the form. */
  function FieldName(k: Field): string {
    match k
    case Intent => "intent"
    case ApplicationId => "applicationId"
    case ColumnId => "columnId"
    case ToColumnId => "toColumnId"
    case NewPosition => "newPosition"
    case DestinationColumnId => "destinationColumnId"
    case Company => "company"
    case Role => "role"
    case Url => "url"
    case DateApplied => "dateApplied"
    case SalaryMin => "salaryMin"
    case SalaryMax => "salaryMax"
    case SalaryCurrency => "salaryCurrency"
    case Notes => "notes"
    case Name => "name"
    case Color => "color"
  }

  /** The fields stand for sixteen different keys. */
  lemma FieldNameInjective(a: Field, b: Field)
    ensures FieldName(a) == FieldName(b) ==> a == b
  {
  }

  type Form = map<Field, FormEntry>

  /** `formData.get(k)`. */
  function Get(f: Form, k: Field): Option<FormEntry> {
    if k in f then Some(f[k]) else None
  }

  /** `typeof formData.get(k) === "string"`, with the string. */
  function TextOf(f: Form, k: Field): (r: Option<string>)
    ensures r.Some? <==> k in f && f[k].Text?
    ensures r.Some? ==> f[k] == Text(r.value)
  {
    if k in f && f[k].Text? then Some(f[k].text) else None
  }

  /** `typeof v === "string" && v.trim()`: a string that is not blank. */
  predicate NonBlankText(f: Form, k: Field) {
    TextOf(f, k).Some? && Trim(TextOf(f, k).value) != []
  }

  /** The check passes exactly when the field holds a string that is not all white space. */
  lemma NonBlankTextMeaning(f: Form, k: Field)
    ensures NonBlankText(f, k) <==> k in f && f[k].Text? && !IsBlank(f[k].text)
  {
    if k in f && f[k].Text? {
      var s := f[k].text;
      assert TextOf(f, k) == Some(s);
      TrimEmptyIffBlank(s);
    }
  }

  /** `typeof v === "string" && v`: a non-empty string (not trimmed). */
  predicate NonEmptyText(f: Form, k: Field) {
    TextOf(f, k).Some? && TextOf(f, k).value != []
  }

  /** `typeof v === "string" && v.trim() ? v.trim() : null`. */
  function TrimmedOrNull(f: Form, k: Field): (r: Option<string>)
    ensures r.Some? <==> NonBlankText(f, k)
    ensures r.Some? ==> r.value == Trim(TextOf(f, k).value) && r.value != []
  {
    if NonBlankText(f, k) then Some(Trim(TextOf(f, k).value)) else None
  }

  /** The `error` messages of the kanban routes. */
  datatype Message =
    | UnknownIntent | ColumnIdRequired | CompanyRequired | RoleRequired | ColumnNotFound
    | InvalidDate | SalaryMinNotNumber | SalaryMaxNotNumber | SalaryRange | ApplicationIdRequired
    | ApplicationNotFound | CompanyEmpty | RoleEmpty | ToColumnIdRequired | BadPosition
    | TargetColumnNotFound | NameRequired | ColorRequired | NameEmpty | ColorEmpty
    | DestinationRequired | DestinationNotFound

  /** The message as the response body spells it. */
  function MessageText(m: Message): string {
    match m
    case UnknownIntent => "Unknown intent"
    case ColumnIdRequired => "columnId is required"
    case CompanyRequired => "Company is required"
    case RoleRequired => "Role is required"
    case ColumnNotFound => "Column not found"
    case InvalidDate => "Invalid dateApplied format"
    case SalaryMinNotNumber => "salaryMin must be a number"
    case SalaryMaxNotNumber => "salaryMax must be a number"
    case SalaryRange => "salaryMin must be <= salaryMax"
    case ApplicationIdRequired => "applicationId is required"
    case ApplicationNotFound => "Application not found"
    case CompanyEmpty => "Company cannot be empty"
    case RoleEmpty => "Role cannot be empty"
    case ToColumnIdRequired => "toColumnId is required"
    case BadPosition => "newPosition must be a non-negative integer"
    case TargetColumnNotFound => "Target column not found"
    case NameRequired => "Name is required"
    case ColorRequired => "Color is required"
    case NameEmpty => "Name cannot be empty"
    case ColorEmpty => "Color cannot be empty"
    case DestinationRequired => "destinationColumnId is required when column has applications"
    case DestinationNotFound => "Destination column not found"
  }

  /** What a handler answers: `201 { id }`, `{ ok: true }`, or a status with `{ error }`. */
  datatype Response = Created(id: Id) | Ok | Rejected(status: int, error: Message)
}
