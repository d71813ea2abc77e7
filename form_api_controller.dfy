/**
 * FormApiController (Controllers/FormApiController.cs): the titles listing,
 * the create endpoint (validation, DTO mapping, one form insert followed by
 * one field insert per submitted field) and the get-by-id endpoint.
 */
module FormApi {
  import opened Wrappers
  import opened Dtos
  import opened Store
  import opened FormRepositories

  const RequiredMessage := "Form title and at least one field are required."
  const CreatedMessage := "Form created successfully."
  const CreateFailedMessage := "An error occurred while creating the form."

  /** The three answers of the create endpoint: 400, 200 and 500. */
  datatype CreateResult =
    | BadRequest(error: string)
    | Created(message: string, formId: int)
    | ServerError(error: string)

  /**
   * The answers of the get-by-id endpoint: 404, 200, and an exception from
   * the repository that the action does not catch.
   */
  datatype GetResult = NotFound | Found(response: FormResponseDTO) | Faulted(error: PersistenceError)

  /** .NET's Char.IsWhiteSpace: the Unicode space, line and paragraph separators, U+0009 to U+000D and U+0085. */
  predicate IsWhiteSpace(c: char) {
    var n := c as int;
    || n == 0x20 || n == 0xA0 || n == 0x1680 || 0x2000 <= n <= 0x200A || n == 0x202F || n == 0x205F || n == 0x3000
    || n == 0x2028 || n == 0x2029
    || 0x09 <= n <= 0x0D || n == 0x85
  }

  /** String.IsNullOrWhiteSpace */
  predicate IsNullOrWhiteSpace(s: Option<string>)
    ensures s == Some("") ==> IsNullOrWhiteSpace(s)
    ensures s.Some? && (exists i :: 0 <= i < |s.value| && !IsWhiteSpace(s.value[i])) ==> !IsNullOrWhiteSpace(s)
  {
    s.None? || forall i :: 0 <= i < |s.value| ==> IsWhiteSpace(s.value[i])
  }

  /** The guard of Create: a title that is not blank and a non-null, non-empty field list. */
  predicate IsValidSubmission(dto: FormSubmitDTO)
    ensures IsValidSubmission(dto) ==>
              && dto.title.Some? && |dto.title.value| > 0
              && dto.fields.Some? && |dto.fields.value| > 0
  {
    !IsNullOrWhiteSpace(dto.title) && dto.fields.Some? && |dto.fields.value| > 0
  }

  /** A submitted field as the repository receives it; its Id keeps the default 0. */
  function ToFieldDTO(f: FormSubmitFieldDTO): (r: FormFieldDTO)
    ensures r.id == 0 && ToFieldResponse(r) == SubmittedAsResponse(f)
  {
    FormFieldDTO(0, f.labelText, f.options, f.selectedOption, f.isRequired)
  }

  /** The FormDTO Create builds from an accepted submission; `utcNow` is DateTime.UtcNow. */
  function ToFormDTO(dto: FormSubmitDTO, utcNow: int): (r: FormDTO)
    requires IsValidSubmission(dto)
    ensures r.title == dto.title.value && r.createdAt == utcNow
    ensures |r.fields| == |dto.fields.value|
    ensures forall i :: 0 <= i < |r.fields| ==>
              var f := dto.fields.value[i];
              && r.fields[i].id == 0 && r.fields[i].labelText == f.labelText && r.fields[i].options == f.options
              && r.fields[i].selectedOption == f.selectedOption && r.fields[i].isRequired == f.isRequired
  {
    var fs := dto.fields.value;
    FormDTO(0, dto.title.value, utcNow, seq(|fs|, i requires 0 <= i < |fs| => ToFieldDTO(fs[i])))
  }

  /** A stored field as Get sends it: its own Id is not part of the response. */
  function ToFieldResponse(f: FormFieldDTO): (r: FormFieldResponseDTO) {
    FormFieldResponseDTO(f.labelText, f.isRequired, f.options, f.selectedOption)
  }

  /** The response Get sends for a found form. */
  function ToResponse(form: FormDTO): (r: FormResponseDTO)
  {
    FormResponseDTO(form.id, form.title, seq(|form.fields|, i requires 0 <= i < |form.fields| => ToFieldResponse(form.fields[i])))
  }

  /** The answer of Get when the repository returned `form`. */
  function GetOutcome(form: Option<FormDTO>): (r: GetResult)
    ensures r.NotFound? <==> form.None?
    ensures r.Found? ==> r.response.id == form.value.id && r.response.title == form.value.title
  {
    match form
    case None => NotFound
    case Some(f) => Found(ToResponse(f))
  }

  /** The projection of GetFormTitles. */
  function Titles(forms: seq<FormDTO>): (r: seq<FormTitleDTO>)
    ensures |r| == |forms|
    ensures forall i :: 0 <= i < |r| ==> r[i].id == forms[i].id && r[i].title == forms[i].title
  {
    seq(|forms|, i requires 0 <= i < |forms| => FormTitleDTO(forms[i].id, forms[i].title))
  }

  /** The field inserts Create issues for `fs` under `formId`, in order. */
  function FieldCalls(fs: seq<FormFieldDTO>, formId: int): (r: seq<RepositoryCall>) {
    if fs == [] then [] else FieldCalls(fs[..|fs| - 1], formId) + [CreateFormField(fs[|fs| - 1], formId)]
  }

  /** Whether one of the `n` field inserts throws. */
  predicate FieldInsertFails(failAt: Option<nat>, n: nat) {
    failAt.Some? && 1 <= failAt.value <= n
  }

  /** How many field inserts Create issues for `n` fields: all, or up to the one that throws. */
  function FieldCallsMade(failAt: Option<nat>, n: nat): (r: nat) {
    if FieldInsertFails(failAt, n) then failAt.value else n
  }

  /** How many FormFields rows Create writes for `n` fields. */
  function FieldsWritten(failAt: Option<nat>, n: nat): (r: nat) {
    if FieldInsertFails(failAt, n) then failAt.value - 1 else n
  }

  lemma FieldCallsStep(fs: seq<FormFieldDTO>, formId: int, i: nat)
    requires i < |fs|
    ensures FieldCalls(fs[..i + 1], formId) == FieldCalls(fs[..i], formId) + [CreateFormField(fs[i], formId)]
  {
    assert fs[..i + 1][..i] == fs[..i];
  }

  /** A submitted field as it comes back from Get. */
  function SubmittedAsResponse(f: FormSubmitFieldDTO): (r: FormFieldResponseDTO) {
    FormFieldResponseDTO(f.labelText, f.isRequired, f.options, f.selectedOption)
  }

  class FormApiController {
    const repository: FormRepository

    constructor (repository: FormRepository)
      ensures this.repository == repository
    {
      this.repository := repository;
    }

    /**
     * GET api/FormApi/titles: (Id, Title) of every form, in the order of
     * GetAllFormsAsync; the repository's exception is not caught.
     */
    method GetFormTitles() returns (r: Result<seq<FormTitleDTO>, PersistenceError>)
      modifies repository, repository.db
      ensures repository.db.tables == old(repository.db.tables) && repository.db.StatementIssued()
      ensures repository.calls == old(repository.calls) + [GetAllForms]
      ensures repository.db.InTransaction() ==> r == Err(TransactionRequired)
      ensures !repository.db.InTransaction() ==>
                var forms := Listing(repository.db.tables);
                && r.Ok?
                && |r.value| == |forms|
                && forall i :: 0 <= i < |r.value| ==> r.value[i].id == forms[i].id && r.value[i].title == forms[i].title
    {
      var forms := repository.GetAllFormsAsync();
      if forms.Err? {
        return Err(forms.error);
      }
      r := Ok(Titles(forms.value));
    }

    /**
     * POST api/FormApi/Create. `utcNow` is the controller's clock, `storeNow`
     * the CreatedAt the database supplies, and `failAt` the repository write
     * that fails in the database, if any: 0 for the form insert, i + 1 for
     * the insert of field i; `leavesOpen` says whether the connection is
     * still open after that write throws. A pending transaction on the
     * connection makes the form insert throw. Every exception is caught and
     * answered with 500.
     */
    method Create(dto: FormSubmitDTO, utcNow: int, storeNow: int, failAt: Option<nat>, leavesOpen: bool)
      returns (r: CreateResult)
      modifies repository, repository.db
      ensures old(repository.db.Valid()) ==> repository.db.Valid()
      // rejected: no repository call at all
      ensures !IsValidSubmission(dto) ==>
                r == BadRequest(RequiredMessage) && unchanged(repository, repository.db)
      // the form insert throws: nothing is written
      ensures IsValidSubmission(dto) && (failAt == Some(0) || old(repository.db.InTransaction())) ==>
                && r == ServerError(CreateFailedMessage)
                && repository.db.tables == old(repository.db.tables)
                && repository.calls == old(repository.calls) + [CreateForm(ToFormDTO(dto, utcNow))]
                && repository.db.TransactionsUnchanged()
                && repository.db.connectionOpen == (old(repository.db.InTransaction()) || leavesOpen)
      // otherwise: one form insert, then one field insert per field, in order, with the new id,
      // up to the one that throws; rows already written stay
      ensures IsValidSubmission(dto) && failAt != Some(0) && !old(repository.db.InTransaction()) ==>
                var obj := ToFormDTO(dto, utcNow);
                var id := old(repository.db.tables.nextFormId);
                var n := |obj.fields|;
                && repository.db.TransactionsUnchanged()
                && repository.db.connectionOpen == (!FieldInsertFails(failAt, n) || leavesOpen)
                && r == (if FieldInsertFails(failAt, n) then ServerError(CreateFailedMessage) else Created(CreatedMessage, id))
                && repository.db.tables
                   == old(repository.db.tables).InsertForm(obj.title, storeNow).InsertFields(id, obj.fields[..FieldsWritten(failAt, n)])
                && repository.calls
                   == old(repository.calls) + [CreateForm(obj)] + FieldCalls(obj.fields[..FieldCallsMade(failAt, n)], id)
    {
      if IsNullOrWhiteSpace(dto.title) || dto.fields.None? || |dto.fields.value| == 0 {
        return BadRequest(RequiredMessage);
      }
      var obj := ToFormDTO(dto, utcNow);
      var created := repository.CreateFormAsync(obj, storeNow, failAt == Some(0), leavesOpen);
      if created.Err? {
        return ServerError(CreateFailedMessage);
      }
      var formId := created.value;
      var failed := InsertEachField(obj.fields, formId, failAt, leavesOpen);
      if failed {
        return ServerError(CreateFailedMessage);
      }
      r := Created(CreatedMessage, formId);
    }

    /**
     * The insert loop of Create, entered once the form insert has returned
     * (so no transaction is pending): one field insert per field, in order,
     * all under `formId`, stopping at the one that throws (`failAt` == i + 1
     * for field i). Reports whether one threw; the connection is then open
     * exactly when `leavesOpen` says so.
     */
    method InsertEachField(fields: seq<FormFieldDTO>, formId: int, failAt: Option<nat>, leavesOpen: bool) returns (failed: bool)
      requires repository.db.tables.HasForm(formId) && repository.db.connectionOpen && !repository.db.InTransaction()
      modifies repository, repository.db
      ensures repository.db.TransactionsUnchanged()
      ensures repository.db.connectionOpen == (!failed || leavesOpen)
      ensures old(repository.db.Valid()) ==> repository.db.Valid()
      ensures failed == FieldInsertFails(failAt, |fields|)
      ensures repository.db.tables == old(repository.db.tables).InsertFields(formId, fields[..FieldsWritten(failAt, |fields|)])
      ensures repository.calls == old(repository.calls) + FieldCalls(fields[..FieldCallsMade(failAt, |fields|)], formId)
    {
      ghost var before := repository.db.tables;
      ghost var callsBefore := repository.calls;
      for i := 0 to |fields|
        invariant repository.db.StatementIssued()
        invariant old(repository.db.Valid()) ==> repository.db.Valid()
        invariant !FieldInsertFails(failAt, i)
        invariant repository.db.tables == before.InsertFields(formId, fields[..i])
        invariant repository.db.tables.HasForm(formId)
        invariant repository.calls == callsBefore + FieldCalls(fields[..i], formId)
      {
        InsertFieldsStep(before, formId, fields, i);
        FieldCallsStep(fields, formId, i);
        var inserted := repository.CreateFormFieldAsync(fields[i], formId, failAt == Some(i + 1), leavesOpen);
        if inserted.Fail? {
          assert FieldsWritten(failAt, |fields|) == i && FieldCallsMade(failAt, |fields|) == i + 1;
          return true;
        }
        assert !FieldInsertFails(failAt, i + 1);
      }
      assert fields[..|fields|] == fields;
      failed := false;
    }

    /**
     * GET api/FormApi/{id}: 404 when the repository returns null, otherwise
     * the form's response shape; the repository's exception is not caught.
     */
    method Get(id: int) returns (r: GetResult)
      modifies repository, repository.db
      ensures repository.db.tables == old(repository.db.tables) && repository.db.StatementIssued()
      ensures repository.calls == old(repository.calls) + [GetFormById(id)]
      ensures r.NotFound? <==> !repository.db.InTransaction() && !repository.db.tables.HasForm(id)
      ensures r == if repository.db.InTransaction() then Faulted(TransactionRequired)
                   else GetOutcome(FormById(repository.db.tables, id))
    {
      var form := repository.GetFormByIdAsync(id);
      FormByIdNoneIff(repository.db.tables, id);
      if form.Err? {
        return Faulted(form.error);
      }
      if form.value.None? {
        return NotFound;
      }
      r := Found(ToResponse(form.value.value));
    }
  }

  /** Get answers 404 exactly when no Forms row carries the id. */
  lemma GetNotFoundIff(t: Tables, id: int)
    ensures GetOutcome(FormById(t, id)) == NotFound <==> !t.HasForm(id)
  {
    FormByIdNoneIff(t, id);
  }

  /**
   * A found form's response keeps its id and title and has one response
   * field per form field, in the same order, with the label, required flag,
   * options and selected option copied.
   */
  lemma ResponseMirrorsForm(form: FormDTO)
    ensures var resp := ToResponse(form);
            && resp.id == form.id && resp.title == form.title && |resp.fields| == |form.fields|
            && forall i :: 0 <= i < |resp.fields| ==>
                 && resp.fields[i].labelText == form.fields[i].labelText
                 && resp.fields[i].isRequired == form.fields[i].isRequired
                 && resp.fields[i].options == form.fields[i].options
                 && resp.fields[i].selectedOption == form.fields[i].selectedOption
  {
  }

  /**
   * A rejected submission: a null or blank title, a null field list or an
   * empty one each make Create answer 400.
   */
  lemma RejectedSubmissions(dto: FormSubmitDTO)
    ensures IsNullOrWhiteSpace(dto.title) ==> !IsValidSubmission(dto)
    ensures dto.fields.None? || dto.fields == Some([]) ==> !IsValidSubmission(dto)
    ensures dto.title.Some? && dto.title.value == "" ==> !IsValidSubmission(dto)
    ensures (&& dto.title.Some?
             && (exists i :: 0 <= i < |dto.title.value| && !IsWhiteSpace(dto.title.value[i]))
             && dto.fields.Some? && |dto.fields.value| > 0)
            ==> IsValidSubmission(dto)
  {
  }

  /**
   * Create followed by Get: on a store in a valid state, after an accepted
   * submission's form row and its first `written` field rows are inserted
   * (all of them when every write succeeds, fewer when a field insert
   * throws, since nothing is rolled back), Get finds the form under the id
   * Create used, with the submitted title and exactly those submitted
   * fields, in submission order.
   */
  lemma {:induction false} CreateThenGet(t: Tables, dto: FormSubmitDTO, utcNow: int, storeNow: int, written: nat)
    requires t.Valid() && IsValidSubmission(dto) && written <= |dto.fields.value|
    ensures var obj := ToFormDTO(dto, utcNow);
            var id := t.nextFormId;
            var after := t.InsertForm(obj.title, storeNow).InsertFields(id, obj.fields[..written]);
            var submitted := dto.fields.value;
            GetOutcome(FormById(after, id))
            == Found(FormResponseDTO(id, dto.title.value,
                                     seq(written, i requires 0 <= i < written => SubmittedAsResponse(submitted[i]))))
  {
    var obj := ToFormDTO(dto, utcNow);
    var submitted := dto.fields.value;
    var id := t.nextFormId;
    var fs := obj.fields[..written];
    InsertedFormFound(t, obj.title, storeNow, fs);
    var rows := NewFieldRows(t.nextFieldId, id, fs);
    var form := FormDTO(id, obj.title, storeNow, FieldsOfRows(rows));
    var expected := seq(written, i requires 0 <= i < written => SubmittedAsResponse(submitted[i]));
    var resp := ToResponse(form);
    assert |resp.fields| == |expected|;
    forall i | 0 <= i < written ensures resp.fields[i] == expected[i] {
      assert form.fields[i] == FieldOfRow(rows[i]);
    }
    assert resp == FormResponseDTO(id, dto.title.value, expected);
  }

  /** A created form is listed by GetFormTitles under its id and title, whatever else the store holds. */
  lemma CreateThenListTitles(t: Tables, title: string, storeNow: int)
    ensures var titles := Titles(Listing(t.InsertForm(title, storeNow)));
            exists k :: 0 <= k < |titles| && titles[k] == FormTitleDTO(t.nextFormId, title)
  {
    var after := t.InsertForm(title, storeNow);
    var listed := Listing(after);
    var row := FormRow(t.nextFormId, title, storeNow);
    assert after.forms[|t.forms|] == row;
    var asRows := seq(|listed|, k requires 0 <= k < |listed| => FormRow(listed[k].id, listed[k].title, listed[k].createdAt));
    assert row in multiset(asRows);
    var k :| 0 <= k < |asRows| && asRows[k] == row;
    assert Titles(listed)[k] == FormTitleDTO(t.nextFormId, title);
  }
}
