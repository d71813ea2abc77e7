/**
 * FormRepository (Repositories/FormRepository.cs): the create and read
 * operations on forms and their fields, issued against the store of one
 * DbContext.
 */
module FormRepositories {
  import opened Wrappers
  import opened Dtos
  import opened Store

  /** A call made on the repository, as a caller sees it. */
  datatype RepositoryCall =
    | CreateForm(form: FormDTO)
    | CreateFormField(field: FormFieldDTO, formId: int)
    | GetFormById(id: int)
    | GetAllForms

  /** A FormFields row read back as a field: everything but FormId; writing it back under the same ids gives the row. */
  function FieldOfRow(row: FieldRow): (f: FormFieldDTO)
    ensures NewFieldRow(f.id, row.formId, f) == row
  {
    FormFieldDTO(row.id, row.labelText, row.options, row.selectedOption, row.isRequired)
  }

  /** The loop of GetFormByIdAsync over the FormFields rows it selected: one field per row, in order. */
  function FieldsOfRows(rows: seq<FieldRow>): (r: seq<FormFieldDTO>) {
    seq(|rows|, k requires 0 <= k < |rows| => FieldOfRow(rows[k]))
  }

  /** A Forms row read back as a form; the listing leaves the fields empty. */
  function FormOfRow(row: FormRow): (f: FormDTO)
    ensures FormRow(f.id, f.title, f.createdAt) == row && f.fields == []
  {
    FormDTO(row.id, row.title, row.createdAt, [])
  }

  /** The loop of GetAllFormsAsync over the ordered Forms rows: one form per row, in order. */
  function FormsOfRows(rows: seq<FormRow>): (r: seq<FormDTO>) {
    seq(|rows|, k requires 0 <= k < |rows| => FormOfRow(rows[k]))
  }

  /**
   * What GetFormByIdAsync returns for `id` when the store holds `t`: a found
   * form is a Forms row with that id and carries one field per FormFields
   * row of that id.
   */
  function FormById(t: Tables, id: int): (r: Option<FormDTO>)
    ensures r.Some? ==> && r.value.id == id
                        && FormRow(r.value.id, r.value.title, r.value.createdAt) in t.forms
                        && |r.value.fields| == |FieldsOfForm(t.fields, id)|
  {
    var found := FormsWithId(t.forms, id);
    if found == [] then None
    else
      assert found[0] in found;
      Some(FormDTO(found[0].id, found[0].title, found[0].createdAt, FieldsOfRows(FieldsOfForm(t.fields, id))))
  }

  /** What GetAllFormsAsync returns when the store holds `t`. */
  function Listing(t: Tables): (r: seq<FormDTO>)
    ensures |r| == |t.forms|
    ensures forall k :: 0 <= k < |r| ==> r[k].fields == []
    ensures forall k, l :: 0 <= k < l < |r| ==> r[k].createdAt >= r[l].createdAt
    ensures multiset(seq(|r|, k requires 0 <= k < |r| => FormRow(r[k].id, r[k].title, r[k].createdAt)))
         == multiset(t.forms)
  {
    var sorted := OrderByCreatedAtDesc(t.forms);
    var r := FormsOfRows(sorted);
    assert seq(|r|, k requires 0 <= k < |r| => FormRow(r[k].id, r[k].title, r[k].createdAt)) == sorted;
    r
  }

  /** A field written under `id` and `formId` reads back as the same field carrying the store's id. */
  lemma FieldRoundTrip(id: int, formId: int, f: FormFieldDTO)
    ensures FieldOfRow(NewFieldRow(id, formId, f)) == f.(id := id)
    ensures NewFieldRow(id, formId, f).formId == formId
  {
  }

  /** A form is not found exactly when no Forms row carries its id. */
  lemma FormByIdNoneIff(t: Tables, id: int)
    ensures FormById(t, id).None? <==> !t.HasForm(id)
  {
    var p := (row: FormRow) => row.id == id;
    if t.HasForm(id) {
      var k :| 0 <= k < |t.forms| && t.forms[k].id == id;
      WhereCounts(t.forms, p, t.forms[k]);
      assert t.forms[k] in multiset(FormsWithId(t.forms, id));
    } else {
      WhereNone(t.forms, p);
    }
  }

  /**
   * A found form is the Forms row with that id (ids are unique), with the
   * fields read from the FormFields rows of that id, in scan order.
   */
  lemma FormByIdFound(t: Tables, id: int, k: nat)
    requires t.Valid() && k < |t.forms| && t.forms[k].id == id
    ensures FormById(t, id).Some?
    ensures var f := FormById(t, id).value;
            && f.id == id && f.title == t.forms[k].title && f.createdAt == t.forms[k].createdAt
            && f.fields == FieldsOfRows(FieldsOfForm(t.fields, id))
  {
    var p := (r: FormRow) => r.id == id;
    var found := FormsWithId(t.forms, id);
    WhereCounts(t.forms, p, t.forms[k]);
    assert t.forms[k] in found;
    assert found[0] in t.forms;
    var j :| 0 <= j < |t.forms| && t.forms[j] == found[0];
    assert j == k;
  }

  /** The fields a found form is assembled from: each FormFields row with that FormId, once, and no other row. */
  lemma FoundFieldRows(t: Tables, id: int, row: FieldRow)
    ensures multiset(FieldsOfForm(t.fields, id))[row] == if row.formId == id then multiset(t.fields)[row] else 0
  {
    WhereCounts(t.fields, (r: FieldRow) => r.formId == id, row);
  }

  /**
   * Reading back a form just inserted, with its fields: the new id, the
   * title and timestamp written, and one field per inserted field, in
   * order, each under the identity the store gave it.
   */
  lemma {:induction false} InsertedFormFound(t: Tables, title: string, createdAt: int, fs: seq<FormFieldDTO>)
    requires t.Valid()
    ensures var id := t.nextFormId;
            FormById(t.InsertForm(title, createdAt).InsertFields(id, fs), id)
            == Some(FormDTO(id, title, createdAt, FieldsOfRows(NewFieldRows(t.nextFieldId, id, fs))))
  {
    var id := t.nextFormId;
    var after := t.InsertForm(title, createdAt).InsertFields(id, fs);
    CreateKeepsValid(t, title, createdAt, fs);
    assert after.forms[|t.forms|] == FormRow(id, title, createdAt);
    FormByIdFound(after, id, |t.forms|);
    NewFormFields(t, title, createdAt, fs);
  }

  class FormRepository {
    const db: DbContext
    ghost var calls: seq<RepositoryCall>

    constructor (db: DbContext)
      ensures this.db == db && calls == []
    {
      this.db := db;
      calls := [];
    }

    /**
     * Inserts one Forms row carrying the title alone (the store supplies Id
     * and CreatedAt: `now`) and returns its id. The command throws when the
     * connection has a pending transaction, and `fails` stands for any other
     * failure of the database; either way no table changes. After such a
     * failure the connection is open exactly when `leavesOpen` says so (it
     * is not when the open itself failed or the connection was lost).
     */
    method CreateFormAsync(form: FormDTO, now: int, fails: bool, leavesOpen: bool) returns (r: Result<int, PersistenceError>)
      modifies this, db
      ensures db.TransactionsUnchanged()
      ensures db.connectionOpen == (db.InTransaction() || !fails || leavesOpen)
      ensures calls == old(calls) + [CreateForm(form)]
      ensures old(db.Valid()) ==> db.Valid()
      ensures db.InTransaction() ==> r == Err(TransactionRequired) && db.tables == old(db.tables)
      ensures !db.InTransaction() && fails ==> r == Err(WriteFailed) && db.tables == old(db.tables)
      ensures !db.InTransaction() && !fails ==>
                && r == Ok(old(db.tables.nextFormId))
                && db.tables == old(db.tables).InsertForm(form.title, now)
    {
      db.connectionOpen := true;
      calls := calls + [CreateForm(form)];
      if db.InTransaction() {
        return Err(TransactionRequired);
      }
      if fails {
        db.connectionOpen := leavesOpen;
        return Err(WriteFailed);
      }
      var id := db.tables.nextFormId;
      ghost var before := db.tables;
      db.tables := db.tables.InsertForm(form.title, now);
      if before.Valid() {
        InsertFormValid(before, form.title, now);
      }
      r := Ok(id);
    }

    /**
     * Inserts one FormFields row for `formId` with the field's label,
     * options, selected option and required flag; the field's own id is not
     * used. The Forms table is not touched. Throws, changing no table, on a
     * pending transaction, on a failure of the database and on a FormId that
     * names no form. After a failure of the database the connection is open
     * exactly when `leavesOpen` says so.
     */
    method CreateFormFieldAsync(field: FormFieldDTO, formId: int, fails: bool, leavesOpen: bool) returns (r: Outcome<PersistenceError>)
      modifies this, db
      ensures db.TransactionsUnchanged()
      ensures db.connectionOpen == (db.InTransaction() || !fails || leavesOpen)
      ensures calls == old(calls) + [CreateFormField(field, formId)]
      ensures db.tables.forms == old(db.tables.forms)
      ensures old(db.Valid()) ==> db.Valid()
      ensures db.InTransaction() ==> r == Fail(TransactionRequired) && db.tables == old(db.tables)
      ensures !db.InTransaction() && fails ==> r == Fail(WriteFailed) && db.tables == old(db.tables)
      ensures !db.InTransaction() && !fails && !old(db.tables.HasForm(formId)) ==>
                r == Fail(ForeignKeyViolation) && db.tables == old(db.tables)
      ensures !db.InTransaction() && !fails && old(db.tables.HasForm(formId)) ==>
                && r == Pass
                && db.tables == old(db.tables).InsertField(formId, field)
    {
      db.connectionOpen := true;
      calls := calls + [CreateFormField(field, formId)];
      if db.InTransaction() {
        return Fail(TransactionRequired);
      }
      if fails {
        db.connectionOpen := leavesOpen;
        return Fail(WriteFailed);
      }
      if !db.tables.HasForm(formId) {
        return Fail(ForeignKeyViolation);
      }
      ghost var before := db.tables;
      db.tables := db.tables.InsertField(formId, field);
      if before.Valid() {
        InsertFieldValid(before, formId, field);
      }
      r := Pass;
    }

    /**
     * Reads the form with `id` and its fields, or null when there is none.
     * The tables are only read; the first query throws on a pending
     * transaction.
     */
    method GetFormByIdAsync(id: int) returns (r: Result<Option<FormDTO>, PersistenceError>)
      modifies this, db
      ensures db.tables == old(db.tables) && db.StatementIssued()
      ensures calls == old(calls) + [GetFormById(id)]
      ensures r == if db.InTransaction() then Err(TransactionRequired) else Ok(FormById(db.tables, id))
    {
      db.connectionOpen := true;
      calls := calls + [GetFormById(id)];
      if db.InTransaction() {
        return Err(TransactionRequired);
      }
      var formTable := FormsWithId(db.tables.forms, id);
      if |formTable| == 0 {
        return Ok(None);
      }
      var formRow := formTable[0];
      var fieldsTable := FieldsOfForm(db.tables.fields, id);
      var fields: seq<FormFieldDTO> := [];
      for i := 0 to |fieldsTable|
        invariant fields == FieldsOfRows(fieldsTable[..i])
      {
        fields := fields + [FieldOfRow(fieldsTable[i])];
      }
      assert fieldsTable[..|fieldsTable|] == fieldsTable;
      r := Ok(Some(FormDTO(formRow.id, formRow.title, formRow.createdAt, fields)));
    }

    /**
     * Reads every form, newest first, without fields. The tables are only
     * read; the query throws on a pending transaction.
     */
    method GetAllFormsAsync() returns (r: Result<seq<FormDTO>, PersistenceError>)
      modifies this, db
      ensures db.tables == old(db.tables) && db.StatementIssued()
      ensures calls == old(calls) + [GetAllForms]
      ensures r == if db.InTransaction() then Err(TransactionRequired) else Ok(Listing(db.tables))
    {
      db.connectionOpen := true;
      calls := calls + [GetAllForms];
      if db.InTransaction() {
        return Err(TransactionRequired);
      }
      var formsTable := OrderByCreatedAtDesc(db.tables.forms);
      var forms: seq<FormDTO> := [];
      for i := 0 to |formsTable|
        invariant forms == FormsOfRows(formsTable[..i])
      {
        forms := forms + [FormOfRow(formsTable[i])];
      }
      assert formsTable[..|formsTable|] == formsTable;
      r := Ok(forms);
    }
  }
}
