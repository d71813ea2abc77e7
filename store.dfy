/**
 * The in-memory stand-in for the SQL Server database behind the repository:
 * the two tables Forms(Id, Title, CreatedAt) and
 * FormFields(Id, FormId, Label, Options, SelectedOption, IsRequired), the
 * meaning of the SQL statements the repository issues against them, and the
 * connection/transaction state that the unit of work drives.
 *
 * A table is a sequence of rows in the store's scan order, which is the
 * order of insertion. Identity values and the CreatedAt default are supplied
 * by the store: ids come from a counter, the timestamp is a parameter.
 */
module Store {
  import opened Wrappers
  import opened Dtos

  datatype FormRow = FormRow(id: int, title: string, createdAt: int)

  datatype FieldRow = FieldRow(
    id: int,
    formId: int,
    labelText: string,
    options: string,
    selectedOption: string,
    isRequired: bool)

  /** Why a statement against the store throws. */
  datatype PersistenceError =
    | WriteFailed          // a failed open, a lost connection or any other failure of the write
    | ForeignKeyViolation  // a FormFields row whose FormId names no Forms row
    | TransactionRequired  // a command not enlisted in the local transaction pending on its connection

  // ---------------------------------------------------------------------------
  // WHERE: the rows of a table that satisfy a condition, in scan order
  // ---------------------------------------------------------------------------

  function Where<T>(rows: seq<T>, p: T -> bool): (r: seq<T>)
    ensures |r| <= |rows|
    ensures forall x :: x in r ==> x in rows && p(x)
  {
    if rows == [] then []
    else
      var last := rows[|rows| - 1];
      Where(rows[..|rows| - 1], p) + if p(last) then [last] else []
  }

  /** A WHERE yields each matching row as often as the table holds it, and no other row. */
  lemma {:induction false} WhereCounts<T>(rows: seq<T>, p: T -> bool, x: T)
    ensures multiset(Where(rows, p))[x] == if p(x) then multiset(rows)[x] else 0
  {
    if rows != [] {
      var init, last := rows[..|rows| - 1], rows[|rows| - 1];
      assert rows == init + [last];
      WhereCounts(init, p, x);
    }
  }

  lemma {:induction false} WhereAppend<T>(a: seq<T>, b: seq<T>, p: T -> bool)
    ensures Where(a + b, p) == Where(a, p) + Where(b, p)
  {
    if b != [] {
      var init, last := b[..|b| - 1], b[|b| - 1];
      assert (a + b)[..|a + b| - 1] == a + init;
      assert (a + b)[|a + b| - 1] == last;
      WhereAppend(a, init, p);
      var tail := if p(last) then [last] else [];
      calc {
        Where(a + b, p);
        Where(a + init, p) + tail;
        (Where(a, p) + Where(init, p)) + tail;
        Where(a, p) + (Where(init, p) + tail);
        Where(a, p) + Where(b, p);
      }
    } else {
      assert a + b == a;
    }
  }

  lemma {:induction false} WhereNone<T>(rows: seq<T>, p: T -> bool)
    requires forall k :: 0 <= k < |rows| ==> !p(rows[k])
    ensures Where(rows, p) == []
  {
    if rows != [] {
      WhereNone(rows[..|rows| - 1], p);
    }
  }

  lemma {:induction false} WhereAll<T>(rows: seq<T>, p: T -> bool)
    requires forall k :: 0 <= k < |rows| ==> p(rows[k])
    ensures Where(rows, p) == rows
  {
    if rows != [] {
      var init := rows[..|rows| - 1];
      assert forall k :: 0 <= k < |init| ==> init[k] == rows[k];
      WhereAll(init, p);
      assert rows == init + [rows[|rows| - 1]];
    }
  }

  /** A row is selected exactly when the table holds it and it satisfies the condition. */
  lemma WhereMembers<T>(rows: seq<T>, p: T -> bool)
    ensures forall x :: x in Where(rows, p) <==> x in rows && p(x)
  {
    forall x | x in rows && p(x) ensures x in Where(rows, p) {
      WhereCounts(rows, p, x);
      assert x in multiset(Where(rows, p));
    }
  }

  /** SELECT * FROM Forms WHERE Id = @Id */
  function FormsWithId(forms: seq<FormRow>, id: int): (r: seq<FormRow>)
  {
    Where(forms, (row: FormRow) => row.id == id)
  }

  /** SELECT * FROM FormFields WHERE FormId = @FormId */
  function FieldsOfForm(fields: seq<FieldRow>, formId: int): (r: seq<FieldRow>)
  {
    Where(fields, (row: FieldRow) => row.formId == formId)
  }

  // ---------------------------------------------------------------------------
  // ORDER BY CreatedAt DESC
  // ---------------------------------------------------------------------------

  predicate NewestFirst(rows: seq<FormRow>) {
    forall k, l :: 0 <= k < l < |rows| ==> rows[k].createdAt >= rows[l].createdAt
  }

  /** Puts `row` into a newest-first sequence, before every row no newer than it. */
  function InsertNewestFirst(row: FormRow, sorted: seq<FormRow>): (r: seq<FormRow>)
    requires NewestFirst(sorted)
    ensures NewestFirst(r)
    ensures multiset(r) == multiset(sorted) + multiset{row}
  {
    if sorted == [] || row.createdAt >= sorted[0].createdAt then
      PrependNewest(row, sorted);
      [row] + sorted
    else
      var rest := InsertNewestFirst(row, sorted[1..]);
      assert sorted == [sorted[0]] + sorted[1..];
      NoNewerThanHead(row, sorted, rest);
      PrependNewest(sorted[0], rest);
      [sorted[0]] + rest
  }

  /** A row no older than every row of a newest-first sequence may go in front of it. */
  lemma PrependNewest(x: FormRow, rows: seq<FormRow>)
    requires NewestFirst(rows)
    requires forall k :: 0 <= k < |rows| ==> rows[k].createdAt <= x.createdAt
    ensures NewestFirst([x] + rows)
  {
  }

  /** The rows after the head of a newest-first sequence, with an older row added, are no newer than the head. */
  lemma NoNewerThanHead(row: FormRow, sorted: seq<FormRow>, rest: seq<FormRow>)
    requires NewestFirst(sorted) && sorted != [] && row.createdAt < sorted[0].createdAt
    requires multiset(rest) == multiset(sorted[1..]) + multiset{row}
    ensures forall k :: 0 <= k < |rest| ==> rest[k].createdAt <= sorted[0].createdAt
  {
    forall k | 0 <= k < |rest| ensures rest[k].createdAt <= sorted[0].createdAt {
      assert rest[k] in multiset(rest);
      if rest[k] != row {
        assert rest[k] in multiset(sorted[1..]);
        var j :| 0 <= j < |sorted[1..]| && sorted[1..][j] == rest[k];
        assert sorted[j + 1] == rest[k];
      }
    }
  }

  /**
   * SELECT * FROM Forms ORDER BY CreatedAt DESC. SQL leaves the order of
   * rows with equal CreatedAt open; this store keeps their scan order.
   */
  function OrderByCreatedAtDesc(rows: seq<FormRow>): (r: seq<FormRow>)
    ensures NewestFirst(r)
    ensures multiset(r) == multiset(rows)
  {
    if rows == [] then []
    else
      assert rows == [rows[0]] + rows[1..];
      InsertNewestFirst(rows[0], OrderByCreatedAtDesc(rows[1..]))
  }

  /** A form created after every existing one is listed first. */
  lemma NewestListedFirst(rows: seq<FormRow>, row: FormRow)
    requires forall k :: 0 <= k < |rows| ==> rows[k].createdAt < row.createdAt
    ensures OrderByCreatedAtDesc(rows + [row])[0] == row
  {
    var sorted := OrderByCreatedAtDesc(rows + [row]);
    assert row in multiset(sorted);
    var j :| 0 <= j < |sorted| && sorted[j] == row;
    assert sorted[0].createdAt >= row.createdAt;
    assert sorted[0] in multiset(rows + [row]);
    assert sorted[0] in rows + [row];
  }

  // ---------------------------------------------------------------------------
  // The two tables with their identity counters
  // ---------------------------------------------------------------------------

  datatype Tables = Tables(forms: seq<FormRow>, fields: seq<FieldRow>, nextFormId: int, nextFieldId: int)
  {
    predicate HasForm(id: int) {
      exists k :: 0 <= k < |forms| && forms[k].id == id
    }

    /**
     * Primary keys are unique and below the identity counters, and every
     * FormFields row refers to an existing Forms row.
     */
    ghost predicate Valid() {
      && (forall k :: 0 <= k < |forms| ==> forms[k].id < nextFormId)
      && (forall k, l :: 0 <= k < l < |forms| ==> forms[k].id != forms[l].id)
      && (forall k :: 0 <= k < |fields| ==> fields[k].id < nextFieldId)
      && (forall k, l :: 0 <= k < l < |fields| ==> fields[k].id != fields[l].id)
      && (forall k :: 0 <= k < |fields| ==> HasForm(fields[k].formId))
    }

    /** INSERT INTO Forms (Title) OUTPUT INSERTED.Id VALUES (@Title); the new id is `nextFormId`. */
    function InsertForm(title: string, createdAt: int): (t: Tables)
      ensures t.HasForm(nextFormId)
    {
      var t := this.(forms := forms + [FormRow(nextFormId, title, createdAt)], nextFormId := nextFormId + 1);
      assert t.forms[|forms|].id == nextFormId;
      t
    }

    /** INSERT INTO FormFields (FormId, Label, Options, SelectedOption, IsRequired) VALUES (...). */
    function InsertField(formId: int, field: FormFieldDTO): (t: Tables)
    {
      this.(fields := fields + [NewFieldRow(nextFieldId, formId, field)], nextFieldId := nextFieldId + 1)
    }

    /** One FormFields insert per element of `fs`, in order. */
    function InsertFields(formId: int, fs: seq<FormFieldDTO>): (t: Tables)
      ensures t.forms == forms && t.nextFormId == nextFormId
      ensures t.nextFieldId == nextFieldId + |fs|
    {
      if fs == [] then this
      else InsertFields(formId, fs[..|fs| - 1]).InsertField(formId, fs[|fs| - 1])
    }
  }

  /** A Forms insert keeps the tables valid and every existing form. */
  lemma InsertFormValid(t: Tables, title: string, createdAt: int)
    requires t.Valid()
    ensures t.InsertForm(title, createdAt).Valid()
    ensures !t.HasForm(t.nextFormId)
    ensures forall id :: t.HasForm(id) ==> t.InsertForm(title, createdAt).HasForm(id)
  {
    var t' := t.InsertForm(title, createdAt);
    forall id | t.HasForm(id) ensures t'.HasForm(id) {
      var k :| 0 <= k < |t.forms| && t.forms[k].id == id;
      assert t'.forms[k] == t.forms[k];
    }
  }

  /** A FormFields insert for an existing form keeps the tables valid. */
  lemma InsertFieldValid(t: Tables, formId: int, field: FormFieldDTO)
    requires t.Valid() && t.HasForm(formId)
    ensures t.InsertField(formId, field).Valid()
  {
  }

  lemma {:induction false} InsertFieldsValid(t: Tables, formId: int, fs: seq<FormFieldDTO>)
    requires t.Valid() && t.HasForm(formId)
    ensures t.InsertFields(formId, fs).Valid()
  {
    if fs != [] {
      InsertFieldsValid(t, formId, fs[..|fs| - 1]);
      InsertFieldValid(t.InsertFields(formId, fs[..|fs| - 1]), formId, fs[|fs| - 1]);
    }
  }

  /** A form insert followed by inserts of its fields keeps the primary keys unique and the foreign keys resolved. */
  lemma CreateKeepsValid(t: Tables, title: string, createdAt: int, fs: seq<FormFieldDTO>)
    requires t.Valid()
    ensures t.InsertForm(title, createdAt).InsertFields(t.nextFormId, fs).Valid()
  {
    InsertFormValid(t, title, createdAt);
    InsertFieldsValid(t.InsertForm(title, createdAt), t.nextFormId, fs);
  }

  /** The rows the inserts of `fs` add: one per field, in order, with consecutive ids. */
  lemma {:induction false} InsertFieldsRows(t: Tables, formId: int, fs: seq<FormFieldDTO>)
    ensures t.InsertFields(formId, fs).fields == t.fields + NewFieldRows(t.nextFieldId, formId, fs)
  {
    if fs != [] {
      var init := fs[..|fs| - 1];
      InsertFieldsRows(t, formId, init);
      assert NewFieldRows(t.nextFieldId, formId, fs)
          == NewFieldRows(t.nextFieldId, formId, init) + [NewFieldRow(t.nextFieldId + |init|, formId, fs[|fs| - 1])];
    }
  }

  /** Inserting the fields of `fs` one more at a time. */
  lemma InsertFieldsStep(t: Tables, formId: int, fs: seq<FormFieldDTO>, i: nat)
    requires i < |fs|
    ensures t.InsertFields(formId, fs[..i + 1]) == t.InsertFields(formId, fs[..i]).InsertField(formId, fs[i])
  {
    assert fs[..i + 1][..i] == fs[..i];
  }

  /** The row a FormFields insert adds: the field's own id is not used, the store assigns one. */
  function NewFieldRow(id: int, formId: int, f: FormFieldDTO): (r: FieldRow) {
    FieldRow(id, formId, f.labelText, f.options, f.selectedOption, f.isRequired)
  }

  function NewFieldRows(firstId: int, formId: int, fs: seq<FormFieldDTO>): (r: seq<FieldRow>) {
    seq(|fs|, i requires 0 <= i < |fs| => NewFieldRow(firstId + i, formId, fs[i]))
  }

  const EmptyTables := Tables([], [], 1, 1)

  /**
   * After inserting a form and then its fields, selecting the fields of the
   * new form yields exactly the new rows, in insertion order.
   */
  lemma {:induction false} NewFormFields(t: Tables, title: string, createdAt: int, fs: seq<FormFieldDTO>)
    requires t.Valid()
    ensures var id := t.nextFormId;
            var t1 := t.InsertForm(title, createdAt);
            FieldsOfForm(t1.InsertFields(id, fs).fields, id) == NewFieldRows(t.nextFieldId, id, fs)
  {
    var id := t.nextFormId;
    var t1 := t.InsertForm(title, createdAt);
    var p := (row: FieldRow) => row.formId == id;
    var added := NewFieldRows(t.nextFieldId, id, fs);
    InsertFieldsRows(t1, id, fs);
    forall k | 0 <= k < |t.fields| ensures !p(t.fields[k]) {
      var j :| 0 <= j < |t.forms| && t.forms[j].id == t.fields[k].formId;
    }
    WhereNone(t.fields, p);
    WhereAll(added, p);
    WhereAppend(t.fields, added, p);
  }

  // ---------------------------------------------------------------------------
  // The database context: tables, connection and transactions
  // ---------------------------------------------------------------------------

  datatype TransactionEvent =
    | Began(tx: nat)
    | Committed(tx: nat)
    | RolledBack(tx: nat)
    | Disposed(tx: nat)

  /**
   * The store one DbContext talks to. `transactionsBegun` numbers the
   * transactions the connection has handed out, `pendingTransaction` is the
   * local transaction the connection has begun and not yet completed, and
   * `transactionLog` records what the database was told about each of them.
   */
  class DbContext {
    var tables: Tables
    var connectionOpen: bool
    var connectionDisposed: bool
    var transactionsBegun: nat
    var pendingTransaction: Option<nat>
    ghost var transactionLog: seq<TransactionEvent>

    ghost predicate Valid()
      reads this
    {
      tables.Valid()
    }

    constructor ()
      ensures Valid() && tables == EmptyTables
      ensures !connectionOpen && !connectionDisposed
      ensures transactionsBegun == 0 && pendingTransaction == None && transactionLog == []
    {
      tables := EmptyTables;
      connectionOpen := false;
      connectionDisposed := false;
      transactionsBegun := 0;
      pendingTransaction := None;
      transactionLog := [];
    }

    /**
     * A command on this connection must be enlisted in the pending local
     * transaction, if there is one; the repository never enlists its
     * commands, so each of them then throws.
     */
    predicate InTransaction()
      reads this
    {
      pendingTransaction.Some?
    }

    /** Nothing about the connection's disposal or its transactions changed. */
    twostate predicate TransactionsUnchanged()
      reads this
    {
      && connectionDisposed == old(connectionDisposed)
      && transactionsBegun == old(transactionsBegun)
      && pendingTransaction == old(pendingTransaction)
      && transactionLog == old(transactionLog)
    }

    /** A statement was issued: the connection is open, nothing about transactions changed. */
    twostate predicate StatementIssued()
      reads this
    {
      connectionOpen && TransactionsUnchanged()
    }
  }
}
