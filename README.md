# Dynamic form builder: forms, fields and their unit of work

This project models the server-side core of the DynamicFormBuilderAppQIA web
application in Dafny and proves properties of that model. A user submits a
form made of a title and a list of fields (label, options, selected option,
required flag). The API validates the submission, stores one `Forms` row and
then one `FormFields` row per field, reads a form back with its fields, and
lists forms newest first.

The SQL Server database is replaced by an in-memory store of two tables
(`Store.Tables`) inside a `Store.DbContext` object:

- The store supplies identity values from counters that start at 1.
- The store supplies the `CreatedAt` timestamp, passed in as a parameter.
- A SELECT returns rows in the store's scan order, which is insertion order.
- `ORDER BY CreatedAt DESC` keeps ties in scan order.

The C# classes that update state are Dafny classes:

- `FormRepositories.FormRepository` over a `DbContext`;
- `FormApi.FormApiController` over a repository;
- `UnitOfWorks.UnitOfWork` with its transaction and disposed flags.

Their methods loop where the source loops. The queries and projections are
functions, and the lemmas beside them prove what the operations promise.

Files:

- `wrappers.dfy`: the Option, Result and Outcome types.
- `dtos.dfy`: the transfer objects.
- `store.dfy`: tables, SQL semantics and the database context.
- `form_repository.dfy`: the repository.
- `form_api_controller.dfy`: the controller.
- `unit_of_work.dfy`: the unit of work.

Inputs the program takes from its environment are parameters:

- `utcNow` is the controller's `DateTime.UtcNow`.
- `storeNow` is the database's `CreatedAt` default.
- `fails` on a repository write, and `failAt` on `Create`, say which database write fails. `failAt` is 0 for the form insert and i + 1 for the insert of field i.
- `leavesOpen` on those writes says whether the connection is still open after the write that fails. It is not when the open itself failed or the connection was lost.
- `fails` on commit and rollback says that the database fails to complete the transaction.

The connection allows one pending local transaction (`DbContext.pendingTransaction`). The repository's commands are never enlisted in it (Data/DbContext.cs builds each `SqlCommand` without one), and the client library refuses such a command while a transaction is pending. So every repository statement throws `TransactionRequired` in that state, reads included.

## Model

| member | source | states |
|---|---|---|
| Store.Where | Repositories/FormRepository.cs:52-69 | the `WHERE` of both lookups: the rows that satisfy the condition, in scan order; never more rows than the table, and only rows of the table that satisfy the condition |
| Store.WhereCounts | Repositories/FormRepository.cs:67-69 | a `SELECT ... WHERE` yields every row that satisfies the condition, as often as the table holds it, and no other row |
| Store.WhereAppend | Repositories/FormRepository.cs:67-69 | a WHERE over rows written before and after a point yields the earlier matches first, in scan order |
| Store.WhereMembers | Repositories/FormRepository.cs:52-55 | a row is selected exactly when the table holds it and it satisfies the condition |
| Store.FormsWithId | Repositories/FormRepository.cs:52-55 | `SELECT * FROM Forms WHERE Id = @Id`: the Forms rows with that id, in scan order (no contract of its own; `Store.WhereMembers` and `Store.WhereCounts` state what it selects) |
| Store.FieldsOfForm | Repositories/FormRepository.cs:67-69 | `SELECT * FROM FormFields WHERE FormId = @FormId`: the FormFields rows with that FormId, in scan order (no contract of its own; `Store.WhereMembers` and `Store.WhereCounts` state what it selects) |
| Store.OrderByCreatedAtDesc | Repositories/FormRepository.cs:89 | `ORDER BY CreatedAt DESC` returns a permutation of the table (same multiset of rows) in which CreatedAt never increases |
| Store.NewestListedFirst | Repositories/FormRepository.cs:89 | a form created after every existing form comes first in the ordered listing |
| Store.Tables.InsertForm | Repositories/FormRepository.cs:17-30 | the Forms insert adds a row under the next identity value, so that form then exists |
| Store.Tables.InsertField | Repositories/FormRepository.cs:32-47 | one FormFields insert: Forms untouched and one row appended under the next field identity and the given FormId (no contract of its own; `Store.Tables.InsertFields` and `Store.InsertFieldsRows` state what a sequence of them does) |
| Store.NewFieldRow | Repositories/FormRepository.cs:34-45 | the row the field insert writes: the given identity and FormId, then the field's Label, Options, SelectedOption and IsRequired; the field's own Id is not written (no contract of its own; `FormRepositories.FieldRoundTrip` states what it keeps) |
| Store.Tables.InsertFields | Controllers/FormApiController.cs:69-72 | inserting a form's fields one by one leaves the Forms table and its counter untouched and uses one FormFields identity per field |
| Store.InsertFormValid | Repositories/FormRepository.cs:19-22 | on a store with unique keys and resolved foreign keys, the Forms insert uses an id no row has yet, keeps every existing form and keeps the store valid |
| Store.InsertFieldValid | Repositories/FormRepository.cs:34-36 | a FormFields insert whose FormId names an existing form keeps keys unique and foreign keys resolved |
| Store.InsertFieldsValid | Controllers/FormApiController.cs:69-72 | any number of field inserts for an existing form keep the store valid |
| Store.CreateKeepsValid | Controllers/FormApiController.cs:67-72 | a form insert followed by inserts of any of its fields, complete or cut short, keeps the store valid |
| Store.InsertFieldsRows | Repositories/FormRepository.cs:34-45 | the field inserts append exactly one row per field, in order, with consecutive ids, the given FormId and the label, options, selected option and required flag copied; the field's own Id is not used |
| Store.NewFormFields | Repositories/FormRepository.cs:67-69 | after a form and its fields are inserted, selecting the FormFields of the new id yields exactly the new rows, in insertion order |
| FormRepositories.FieldOfRow | Repositories/FormRepository.cs:74-81 | a FormFields row read back as a field: Id, Label, Options, SelectedOption and IsRequired copied, FormId dropped; writing the field back under the row's Id and FormId gives the row |
| FormRepositories.FieldRoundTrip | Repositories/FormRepository.cs:74-81 | a field written under a store identity and a FormId reads back as the same field with that identity, under that FormId |
| FormRepositories.FieldsOfRows | Repositories/FormRepository.cs:71-82 | the field loop of GetFormByIdAsync: one field per selected row, in order (no contract of its own; `FormRepositories.FoundFieldRows` and `FormRepositories.InsertedFormFound` state what it yields) |
| FormRepositories.FormOfRow | Repositories/FormRepository.cs:95-100 | a Forms row read back as a form keeps Id, Title and CreatedAt and has an empty field list |
| FormRepositories.FormsOfRows | Repositories/FormRepository.cs:92-101 | the listing loop of GetAllFormsAsync: one form per ordered row, in order (no contract of its own; `FormRepositories.Listing` states what it yields) |
| FormRepositories.FormById | Repositories/FormRepository.cs:50-85 | what GetFormByIdAsync returns: a found form is a Forms row with the requested id, with one field per FormFields row of that id |
| FormRepositories.InsertedFormFound | Repositories/FormRepository.cs:50-85 | on a valid store, after a form and then its fields are inserted, the lookup of the new id finds the title and timestamp written and one field per inserted field, in order, each under the identity the store gave it |
| FormRepositories.Listing | Repositories/FormRepository.cs:87-104 | the listing has one entry per Forms row (same multiset of id, title, CreatedAt), newest first, each with an empty field list |
| FormRepositories.FormByIdNoneIff | Repositories/FormRepository.cs:52-56 | the lookup yields null exactly when no Forms row has the id |
| FormRepositories.FormByIdFound | Repositories/FormRepository.cs:58-64 | on a valid store, a found form carries the Id, Title and CreatedAt of the Forms row with that id and the fields read from the FormFields rows of that id |
| FormRepositories.FoundFieldRows | Repositories/FormRepository.cs:67-82 | the fields of a found form come from each FormFields row with that FormId, once, and from no other row |
| FormRepositories.FormRepository.constructor | Repositories/FormRepository.cs:12-15 | the repository holds the given DbContext |
| FormRepositories.FormRepository.CreateFormAsync | Repositories/FormRepository.cs:17-30 | inserts one Forms row with only the form's title and the store's timestamp and returns its new id; form.CreatedAt and form.Fields are ignored; a pending transaction or a failing write makes it throw and change no table; after a failing write the connection is open exactly when `leavesOpen` says so, and otherwise it is open; no transaction state changes; a valid store stays valid |
| FormRepositories.FormRepository.CreateFormFieldAsync | Repositories/FormRepository.cs:32-48 | inserts one FormFields row for `formId` and leaves Forms untouched; a pending transaction, a failing write or a FormId naming no form makes it throw and change no table; after a failing write the connection is open exactly when `leavesOpen` says so, and otherwise it is open; no transaction state changes; a valid store stays valid |
| FormRepositories.FormRepository.GetFormByIdAsync | Repositories/FormRepository.cs:50-85 | throws on a pending transaction; otherwise its loop builds the field list and it returns exactly `FormById` of the unchanged store |
| FormRepositories.FormRepository.GetAllFormsAsync | Repositories/FormRepository.cs:87-104 | throws on a pending transaction; otherwise its loop builds the list and it returns exactly `Listing` of the unchanged store |
| FormApi.IsWhiteSpace | Controllers/FormApiController.cs:46 | .NET's white-space characters: U+0009 to U+000D, U+0020, U+0085, U+00A0, U+1680, U+2000 to U+200A, U+2028, U+2029, U+202F, U+205F and U+3000 (no contract of its own; used by `FormApi.IsNullOrWhiteSpace`) |
| FormApi.IsNullOrWhiteSpace | Controllers/FormApiController.cs:46 | `string.IsNullOrWhiteSpace`: null, or every character white space; the empty string counts as blank, and a string with a character that is not white space does not |
| FormApi.IsValidSubmission | Controllers/FormApiController.cs:46 | the guard of Create; an accepted submission has a non-empty title and a non-null, non-empty field list |
| FormApi.ToFieldDTO | Controllers/FormApiController.cs:58-64 | a submitted field as the repository receives it: Id left at 0; read back through Get it gives the submitted label, required flag, options and selected option |
| FormApi.ToFormDTO | Controllers/FormApiController.cs:54-65 | the FormDTO Create builds: the submitted title, the controller's clock as CreatedAt, and one field per submitted field, in order, with Id 0 and the label, options, selected option and required flag copied |
| FormApi.ToFieldResponse | Controllers/FormApiController.cs:103-109 | a stored field as Get sends it: label, required flag, options and selected option, without the field's Id (no contract of its own; `FormApi.ResponseMirrorsForm` states what it keeps) |
| FormApi.ToResponse | Controllers/FormApiController.cs:99-110 | the FormResponseDTO Get builds from a found form (no contract of its own; `FormApi.ResponseMirrorsForm` states what it keeps) |
| FormApi.GetOutcome | Controllers/FormApiController.cs:93-112 | Get's answer for the repository's result: NotFound exactly when it is null; otherwise Found with the form's Id and Title |
| FormApi.ResponseMirrorsForm | Controllers/FormApiController.cs:99-110 | the response keeps the form's Id and Title and has one field per form field, in order, copying label, required flag, options and selected option |
| FormApi.Titles | Controllers/FormApiController.cs:24-28 | the projection to (Id, Title): same length and order as the forms |
| FormApi.FormApiController.constructor | Controllers/FormApiController.cs:15-18 | the controller holds the given repository |
| FormApi.FormApiController.GetFormTitles | Controllers/FormApiController.cs:21-31 | returns one (Id, Title) per form listed by GetAllFormsAsync, with the same length and order; the repository's exception on a pending transaction is not caught; the store is unchanged |
| FormApi.FormApiController.Create | Controllers/FormApiController.cs:42-87 | a null, empty or blank title, or a null or empty field list, gives 400 with the fixed message and no repository call. Otherwise there is one form insert, then one field insert per field with the returned id, in submission order, each copying the submitted label, options, selected option and required flag. The result is 200 with the fixed message and the new id, or 500 with the fixed message at the first write that throws (the form insert throws when a transaction is pending). Rows written before that write stay in the store, the connection is open unless the write that threw left it closed, no transaction state changes, and a valid store stays valid |
| FormApi.FormApiController.InsertEachField | Controllers/FormApiController.cs:69-72 | its loop issues one field insert per field, in order, all under the given form id, and stops at the first one that throws; it reports failure exactly when one threw, and the store then holds exactly the fields before that one and stays valid; the connection stays open unless the insert that threw left it closed |
| FormApi.FormApiController.Get | Controllers/FormApiController.cs:90-113 | 404 exactly when no transaction is pending and no Forms row has the id; otherwise the response mapped from the repository's form, or the repository's uncaught exception on a pending transaction; the store is unchanged |
| FormApi.GetNotFoundIff | Controllers/FormApiController.cs:92-96 | Get's outcome is NotFound exactly when no form has the id |
| FormApi.RejectedSubmissions | Controllers/FormApiController.cs:46-52 | a null, empty or whitespace-only title, a null field list or an empty one each fail validation; a title with a non-whitespace character and a non-empty field list pass |
| FormApi.CreateThenGet | Controllers/FormApiController.cs:54-72 | on a valid store, after an accepted submission's form and its first `written` fields are inserted, Get finds the new id with the submitted title and exactly those submitted fields in submission order; this covers full success and a cut-short create |
| FormApi.CreateThenListTitles | Controllers/FormApiController.cs:23-30 | after a form is inserted, GetFormTitles lists its new id with its title |
| UnitOfWorks.UnitOfWork.constructor | Repositories/UnitOfWork.cs:14-20 | `Forms` is a new repository over the same DbContext; no transaction, not disposed; it tracks the connection exactly when the connection has no pending transaction |
| UnitOfWorks.UnitOfWork.BeginTransactionAsync | Repositories/UnitOfWork.cs:22-29 | opens the connection if it is not open; a failure to open throws and changes nothing. `BeginTransaction` throws when the connection already has a pending transaction or the database fails to begin one; whenever Begin throws, the current transaction stays as it was. Otherwise a new transaction becomes pending and current. Tables unchanged. While the unit of work tracks the connection, Begin throws whenever a transaction is current |
| UnitOfWorks.UnitOfWork.CommitTransactionAsync | Repositories/UnitOfWork.cs:31-38 | with no current transaction nothing changes. When the commit throws (the transaction is no longer pending, or the database fails) nothing changes and the transaction stays set. Otherwise the database commits it, and no transaction is current or pending afterwards |
| UnitOfWorks.UnitOfWork.RollbackTransactionAsync | Repositories/UnitOfWork.cs:40-47 | with no current transaction nothing changes. When the rollback throws nothing changes and the transaction stays set. Otherwise the database rolls it back, and no transaction is current or pending afterwards. The tables are unchanged: no repository statement can write while it is pending |
| UnitOfWorks.UnitOfWork.SaveChangesAsync | Repositories/UnitOfWork.cs:49-54 | always returns true and changes nothing |
| UnitOfWorks.UnitOfWork.Dispose | Repositories/UnitOfWork.cs:56-74 | the first call disposes the current transaction, if any (the database rolls it back when it is still pending), and closes and disposes the connection, leaving no transaction pending; the transaction field is not cleared; every later call changes nothing; afterwards the unit of work is disposed |

## Left out

- Data/DbContext.cs (connection, command and `DataTable` plumbing) is not part of this model. The store semantics in `store.dfy` replace it.
- Async/await and `Task.Run`: every operation is sequential.
- Identity generation and the `CreatedAt` default: not shown in the code. Ids come from counters starting at 1; the timestamp is the `storeNow` parameter.
- The foreign key FormFields.FormId → Forms.Id: the table definitions are outside the modelled code. The key is modelled as a store-side check that makes the field insert throw.
- SQL leaves the order of rows open without `ORDER BY`, and the order of CreatedAt ties with it. The model fixes both to insertion order, so its results are one of the orders SQL Server may return.
- Read failures other than the pending-transaction refusal (a lost connection during a SELECT), and `Convert.ToInt32`/`ToDateTime`/`ToBoolean` failures on malformed rows, are not modelled.
- Null strings inside a submitted field (label, options, selected option) are not modelled. Only the title and the field list are nullable in the model.
- `GetAll` (Controllers/FormApiController.cs:35-39) returns an unawaited task and has no logic of its own.
- Use of a repository or unit of work after `Dispose`: the model does not make later statements or a later Begin fail. A commit or rollback of the disposed transaction does fail, as `TransactionCompleted`.
- UnitOfWorks.UnitOfWork.CommitTransactionAsync: a commit that fails in the database is modelled as leaving the transaction pending on the connection. The state SQL Server leaves it in after such a failure is not modelled.
- UnitOfWorks.UnitOfWork.RollbackTransactionAsync: the rollback changes no table. Repository commands are never enlisted in the transaction, so none of them can write while it is pending. Statements of other clients are not modelled.
- The data-annotation length limits and the rule that the selected option be one of the options are not enforced on any code path, so they are not modelled.
- Create.js, Program.cs, Data/DbContextConfig.cs, the Models classes and the two repository interfaces are not part of this model. They hold UI, wiring and declarations without behaviour.
- The fields query (Repositories/FormRepository.cs:67) has no ORDER BY, so the model returns fields in scan order. The controller does not use the unit of work, so a create cut short leaves the form and its earlier fields in the store.
- The C# property `Label` is named `labelText`, because `label` is a reserved word in Dafny.
