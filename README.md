# Backup and restore of a Mercado Pago billing system, in Dafny

The system keeps billing records ("cobranças") in a database and issues
payments for them through Mercado Pago. This project models four parts of it.

- **The backup service**:
  - Exports every record, or only the records updated in the last 24 hours, as a JSON document in the backup directory.
  - Commits that file to a git working copy.
  - Restores a backup by inserting only the records whose `external_reference` is not yet in the database. It commits once and rolls back on any failure.
  - Lists the backup files newest first.
- **The record** (`Cobranca`): its required and nullable columns, the uniqueness of `external_reference` and `mercadopago_id`, the `to_dict` projection, and the `dados_mercadopago` setter and getter.
- **The string logic of the payment service**:
  - Splitting the payer's name into first and last name.
  - Classifying CPF/CNPJ documents and normalising their numbers.
  - Falling back from the description to the title.
  - Mapping SDK status codes to success.
  - Parsing the `x-signature` header and building the webhook manifest.
- **The front-end helpers**: the status labels, the phone and CPF/CNPJ input masks, the pagination bar, the required-field check of the create form, and the list view's filter state.

Modules:

| module | what it holds |
|---|---|
| `Wrappers` | `Option` and `Result` |
| `Json` | a decoded JSON value and Python truthiness |
| `DateTimes` | Python's naive `datetime`: validity, ordering, minus 24 hours, `isoformat` and `strftime` |
| `PyStrings` | `str.split()`, `split(sep)`, `strip` and `replace` |
| `CobrancaModel` | the record datatype, `to_dict`, and the mapped object `Entity` whose column the setter assigns |
| `RecordStore` | the database session, as the class `Store` |
| `Snapshot` | the export documents |
| `Restore` | the restore as specification functions, with its lemmas |
| `Catalog` | the backup listing |
| `FileSystem`, `Git` | the backup directory and the git repository, as classes |
| `BackupServiceModel` | the service class with the six operations as methods |
| `MercadoPago` | the payment service's string logic |
| `Frontend` | the front-end helpers |

`Store` keeps four things:
- the committed rows, keyed by `external_reference`;
- their insertion (primary-key) order, which the model takes as the order both export queries return rows in (an assumption, see "## Left out");
- the objects added since the last commit;
- the next primary key.

A lookup sees the added objects as well, because the session autoflushes, so a reference that appears twice in one file is skipped the second time. A commit fails when the database refuses it (a parameter) or when a uniqueness constraint would break. In both cases nothing is inserted.

A restore does not carry dates over from the backup:
- `id`, `data_criacao` and `data_atualizacao` are assigned at insertion;
- `data_vencimento` and `data_pagamento` are not read from the file, so the new record has none.

`Restore.ExportRestoreRoundTrip` states this exactly. A full backup restored into an empty table gives back:
- the same references, in the order of the export (taken as insertion order), with the same content;
- fresh keys from 1;
- the restore's clock reading as both stamps of every row (one reading stands for the per-column defaults, see below);
- no due date and no payment date.

## Model

| member | source | states |
|---|---|---|
| BackupServiceModel.BackupService.constructor | backup_service.py:8-15 | afterwards the backup directory exists, an existing directory keeps its files, and the service works on the given store, disk and repository |
| FileSystem.Disk.EnsureDirectory | backup_service.py:12-15 | the directory exists afterwards; a new directory is empty and an existing one is untouched |
| FileSystem.Disk.WriteJson | backup_service.py:52-53 | the write succeeds exactly when the directory exists and both the open and the dump succeed; once opened the file exists, is listed, and holds the document or, after a failed dump, undecodable text; a failed open changes nothing |
| BackupServiceModel.ExportPath | backup_service.py:17-109 | an export succeeds exactly when the query, the open and the dump succeed, the directory exists and, for the latest export, the 24-hour cutoff is a representable datetime; the path is the directory joined with `cobrancas_backup_<stamp>.json` or `cobrancas_latest.json`; an export whose open succeeded and whose dump failed reports the write error |
| BackupServiceModel.CollectDicts | backup_service.py:29-32 | the loop yields one `to_dict` object per record, in query order |
| BackupServiceModel.BackupService.ExportFull | backup_service.py:17-58 | the result is the path above or its error; once the file is opened it exists under the time-stamped name and joins the listing, holding the full document of every row in query order when the dump succeeds and undecodable text when it fails; an export that fails before the open leaves the disk unchanged |
| BackupServiceModel.BackupService.ExportLatest | backup_service.py:60-109 | once opened, `cobrancas_latest.json` is replaced: by the latest document of exactly the rows updated at or after now minus 24 hours when the dump succeeds, by undecodable text when it fails; an export that fails before the open leaves the disk unchanged |
| Snapshot.DocumentCounts | backup_service.py:35-44 | the full document has exactly its four keys, lists the given entries, and its `total_cobrancas` is their number |
| Snapshot.LatestDocumentCounts | backup_service.py:85-96 | the latest document has exactly its five keys, lists the entries, counts them, and has period `last_24_hours` |
| RecordStore.SelectUpdatedSinceExact | backup_service.py:74-76 | a record is selected exactly when it is in the table and its `data_atualizacao` is set and at or after the cutoff |
| RecordStore.SelectUpdatedSinceOrder | backup_service.py:74-76 | the selection is a subsequence of the rows in the table's insertion order, the order the model takes for both queries |
| RecordStore.Store.UpdatedSince | backup_service.py:74-76 | every selected row is a committed row whose datetimes are representable |
| DateTimes.MinusDay | backup_service.py:71 | minus 24 hours is the previous calendar day at the same time, and it fails exactly on 1 January of year 1 |
| DateTimes.DayShiftRoundTrip | backup_service.py:71 | subtracting and adding a day are inverse wherever both are defined |
| BackupServiceModel.GitOutcome | backup_service.py:124-156 | the commit step succeeds exactly when `.git` exists, `git add` succeeds and `git commit` succeeds; without `.git` the result is the not-a-repository error |
| Git.GitRepo.Add | backup_service.py:131 | a successful `git add` stages the path; nothing else changes |
| Git.GitRepo.Commit | backup_service.py:139 | a successful commit records the staged paths under the message and empties the index; a failed one changes nothing |
| BackupServiceModel.BackupService.CommitToGit | backup_service.py:111-156 | the result is the outcome above, and on success one commit holding the file is appended; when `.git` is missing or `git add` fails, no commit is made and the index is unchanged |
| BackupServiceModel.BackupService.BackupAndCommit | backup_service.py:158-191 | the outer result succeeds exactly when the chosen export (latest exactly for `latest`) succeeds, whatever git returns; git then gets the incremental or full message; when the export fails, git is never run; the disk ends as the chosen export leaves it, and on a finished export the repository gains exactly the commit, or the staged file, that `commit_to_git` leaves |
| Restore.CobrancasOf | backup_service.py:209-215 | a document is accepted exactly when it is an object with a `cobrancas` key; an object without one gives the invalid-structure error |
| Restore.EntriesOf | backup_service.py:220 | iterating a list gives its items; an empty object or string gives none; anything else fails |
| Restore.EntryRef | backup_service.py:222-224 | an entry's lookup key exists exactly when the entry is an object whose `external_reference` is a string |
| Restore.Required | backup_service.py:232-241 | a subscripted field yields its text exactly when it is present and a string; a missing key is the missing-key error |
| Restore.Optional | backup_service.py:233-242 | a `.get` field is absent exactly when the key is missing or null, and otherwise must be a string |
| Restore.NewRecordShape | backup_service.py:231-247 | a built record has the entry's reference, no key and no stamped dates, and a stored `dados_mercadopago` is truthy |
| Restore.NewRecordNeedsRequired | backup_service.py:231-243 | an entry lacking any of the six subscripted fields cannot be built |
| Restore.StepSkips | backup_service.py:222-228 | an entry whose reference is committed or already staged only increments the skipped count |
| Restore.StepStages | backup_service.py:229-250 | an entry with a new reference is either the step's failure or is staged, incrementing the restored count |
| Restore.MergeCounts | backup_service.py:215-259 | after a successful loop, restored plus skipped equals the number of entries, and one record is staged per restored entry |
| Restore.MergeFresh | backup_service.py:220-250 | the restore only inserts: staged records carry distinct references, none already in the table, and have no key |
| Restore.MergeOrigin | backup_service.py:220-250 | every staged record comes from an entry of the file with the same reference |
| Restore.MergeCovers | backup_service.py:220-250 | after a successful loop every entry's reference is in the table or among the staged records |
| Restore.MergeErrSticky | backup_service.py:220-250 | the first failing entry ends the loop: the outcome is that failure whatever follows |
| Restore.MergeAllKnown | backup_service.py:222-228 | when every reference is already known, nothing is staged and every entry is skipped |
| Restore.RequiredFieldMissing | backup_service.py:231-243 | a new entry lacking a required field makes the whole restore fail |
| Restore.RestoreAllOrNothing | backup_service.py:253-267 | a failed restore leaves the table exactly as it was; a successful one keeps every old row, adds one row per restored entry, and keeps the invariant |
| Restore.RestoreKeys | backup_service.py:249-253 | after a successful restore, the references in the table are the old ones plus those of the staged records |
| Restore.RestoreIdempotent | backup_service.py:220-253 | restoring the same file again after a successful restore restores 0, skips all entries, and changes nothing |
| Restore.RestoreOwnSnapshot | backup_service.py:220-260 | restoring a table's own full backup skips every record and changes nothing |
| Restore.NewRecordOfDict | backup_service.py:231-247 | an entry written by `to_dict` is rebuilt as the record's re-import, which equals its content when its `dados_mercadopago` is normal |
| Restore.MergeOfDicts | backup_service.py:220-250 | entries of records with distinct new references are all restored, in order, with none skipped |
| Restore.ExportRestoreRoundTrip | backup_service.py:231-253 | a full backup restored into an empty table restores every record in the export's order (taken as insertion order), with the same references and content, keys from 1, and the restore's clock reading as both stamps |
| BackupServiceModel.BuildRecord | backup_service.py:231-247 | constructing the object and then calling the setter gives exactly the specified new record, or the step's failure |
| BackupServiceModel.StageEntry | backup_service.py:222-250 | one loop iteration computes the specified step, stages exactly its new record, and leaves committed rows alone |
| BackupServiceModel.StageEntries | backup_service.py:215-250 | the loop computes the specified merge of the file's entries and stages exactly its records |
| BackupServiceModel.BackupService.RestoreFromJson | backup_service.py:193-267 | the result and the new table are exactly the specified restore outcome of the old table and the file's content; the session is left clean |
| RecordStore.Store.Find | backup_service.py:222-224 | the lookup finds nothing exactly when the reference is neither committed nor staged |
| RecordStore.Store.Add | backup_service.py:249 | `session.add` stages the record and changes nothing committed |
| RecordStore.Store.Rollback | backup_service.py:263 | rollback discards the staged records and keeps the committed state |
| RecordStore.Store.Commit | backup_service.py:253 | commit succeeds exactly when the database accepts it and the unique constraints hold over old and staged rows; on success the staged rows are appended with fresh keys and stamped times and the old rows are kept; on failure nothing changes |
| RecordStore.InvariantConstraints | netlify/functions/cobranca.py:11-12 | in a valid store, `external_reference` is unique and a set `mercadopago_id` is unique |
| Catalog.CollectExact | backup_service.py:279-290 | collecting succeeds exactly when every `.json` name has a file; it then yields only `.json` entries under the directory, and one for every `.json` name |
| Catalog.CollectNoneSticky | backup_service.py:297-298 | a missing file partway through makes the whole collection fail |
| Catalog.SortNewestFirst | backup_service.py:293 | sorting yields a permutation of the entries |
| Catalog.SortNewestFirstSorted | backup_service.py:293 | the sorted list runs from newest to oldest modification time |
| Catalog.SortNewestFirstStable | backup_service.py:293 | entries with equal modification times keep their listing order, as Python's stable sort does |
| Catalog.ListingProperties | backup_service.py:269-298 | the listing is newest first and holds only `.json` files of the directory; when nothing fails, it holds every one of them |
| BackupServiceModel.BackupService.ListBackupFiles | backup_service.py:269-298 | the loop and sort return exactly the specified listing, and an empty list on any failure |
| CobrancaModel.ToDictKeys | netlify/functions/cobranca.py:43-62 | `to_dict` has exactly the seventeen keys |
| CobrancaModel.ToDictRequired | netlify/functions/cobranca.py:47-55 | the required columns are copied verbatim |
| CobrancaModel.ToDictNullable | netlify/functions/cobranca.py:45-60 | a nullable column is copied when set and is null otherwise |
| CobrancaModel.ToDictDates | netlify/functions/cobranca.py:56-59 | each datetime is its ISO text when set and null otherwise |
| CobrancaModel.ToDictDados | netlify/functions/cobranca.py:61 | `to_dict()['dados_mercadopago']` is what the getter returns |
| CobrancaModel.WithDados | netlify/functions/cobranca.py:66 | the setter changes only that column, and stores a value exactly when it is truthy |
| CobrancaModel.DadosRoundTrip | netlify/functions/cobranca.py:64-70 | after setting a truthy value the getter returns it; after a falsy one the column is null and the getter returns `None` |
| CobrancaModel.Entity.SetDadosMercadopago | netlify/functions/cobranca.py:64-66 | the object's row becomes the updated row, and reading back gives the value or `None` |
| CobrancaModel.DefaultStatusKnown | netlify/functions/cobranca.py:26-27 | the default status `pending` is one of the listed statuses |
| MercadoPago.WhitespaceNameRaises | mercadopago_service.py:38 | as written, a non-empty all-whitespace name has no first token, so indexing raises |
| MercadoPago.FirstNameCorrected | mercadopago_service.py:38 | the corrected first name agrees with the written one wherever that does not raise, and is empty exactly for a blank name |
| MercadoPago.NameSplit | mercadopago_service.py:38-39 | the first name is a token, and it with the last name's tokens gives back the name's tokens; the last name is empty exactly for a one-token name |
| PyStrings.TokensOfJoin | mercadopago_service.py:39 | splitting the space-joined tokens gives them back |
| PyStrings.TokensEmpty | mercadopago_service.py:38 | a string has no tokens exactly when it is all whitespace |
| MercadoPago.IdentificationFor | mercadopago_service.py:51-55 | identification is present exactly for a non-empty document; its type is CPF exactly when the document has 11 characters other than `.` and `-`, else CNPJ; the number holds no `.`, `-` or `/`, and holds each other character of the document as many times as the document does |
| MercadoPago.DocumentCount | mercadopago_service.py:51-54 | the cleaned document's length is the document's length less its `.`s and `-`s, and the number's characters are the document's with `.`, `-` and `/` counted out |
| MercadoPago.DocumentNumberConcat | mercadopago_service.py:54 | the number of a concatenation is the concatenation of the numbers, so the digits keep the document's order |
| PyStrings.Remove | mercadopago_service.py:53-54 | `replace(c, '')` leaves no `c`, is never longer, and keeps exactly the characters other than `c` that occur |
| PyStrings.RemoveCount | mercadopago_service.py:53-54 | removal keeps every other character as often as it occurs and drops the length by the number of `c`s; a string without `c` is unchanged |
| PyStrings.RemoveConcat | mercadopago_service.py:53-54 | removal works piecewise over a concatenation, so the kept characters stay in order |
| MercadoPago.BuildPaymentData | mercadopago_service.py:32-73 | the payment data carries the fallback description, the split name, the identification, the URLs and one item with the same description |
| MercadoPago.PreferenceFor | mercadopago_service.py:77-96 | the preference has one item with the fallback description, reuses the payment's payer, URLs and notification URL, and expires |
| MercadoPago.CreateOutcome | mercadopago_service.py:98-120 | creation succeeds only on status 201; another status without a response gives `Erro desconhecido` |
| MercadoPago.CreateSucceedsIff201 | mercadopago_service.py:100-113 | for a well-formed reply, creation succeeds exactly when the status is 201 |
| MercadoPago.LookupOutcome | mercadopago_service.py:132-150 | the lookup succeeds exactly on status 200 with a response, which it returns |
| PyStrings.SplitJoin | mercadopago_service.py:169 | joining the parts of a split with the separator gives back the string |
| PyStrings.SplitOnce | mercadopago_service.py:174 | `split('=', 1)` gives one part exactly when there is no `=`, otherwise the text before the first `=` and the rest |
| PyStrings.Strip | mercadopago_service.py:174-177 | the stripped text is a slice of the input with only whitespace cut off on either side, and it neither starts nor ends with whitespace |
| MercadoPago.KeyValue | mercadopago_service.py:174-177 | a header part yields a key and value exactly when its stripped text contains `=` |
| MercadoPago.LastValueMeaning | mercadopago_service.py:173-181 | a key's value is `v` exactly when some part sets the key to `v` and no later part sets it |
| MercadoPago.ParseSignatureHeader | mercadopago_service.py:169-181 | the loop yields each of `ts` and `v1` as its last occurrence in the header |
| MercadoPago.ManifestInjective | mercadopago_service.py:187 | for fields without `;`, equal manifests mean equal data id, request id and timestamp |
| MercadoPago.ValidateWebhookSignature | mercadopago_service.py:152-202 | valid exactly when a header is given, `ts` and `v1` are non-empty, and `v1` equals the MAC of the manifest under the secret |
| Frontend.StatusTextLabels | script.js:468-477 | a status is shown unchanged exactly when it is not one of the five known ones; those get one of the five labels |
| Frontend.StatusTextInjective | script.js:469-475 | no two known statuses share a label |
| Frontend.Digits | script.js:56 | digit stripping yields only digits and never lengthens the text; what it keeps is stated by DigitsCount and DigitsConcat |
| Frontend.DigitsCount | script.js:56 | every digit of the input is kept as often as it occurs, and no other character is |
| Frontend.DigitsConcat | script.js:56 | stripping works piecewise over a concatenation, so the kept digits stay in the input's order |
| Frontend.DigitsOfDigits | script.js:56 | a text of digits only comes back unchanged |
| Frontend.PhoneMaskCases | script.js:55-64 | 11 digits give `(DD) DDDDD-DDDD`, 10 give `(DD) DDDD-DDDD`, and any other count gives the bare digits |
| Frontend.DocumentMaskCases | script.js:68-78 | 11 digits give `DDD.DDD.DDD-DD`, 14 or more give `DD.DDD.DDD/DDDD-DD` followed by the rest, and any other count gives the bare digits |
| Frontend.PhoneMaskDigits | script.js:56-61 | the phone mask keeps exactly the digits of its input |
| Frontend.DocumentMaskDigits | script.js:69-75 | the document mask keeps exactly the digits of its input |
| Frontend.PhoneMaskIdempotent | script.js:55-64 | masking a masked phone number changes nothing |
| Frontend.DocumentMaskIdempotent | script.js:68-78 | masking a masked document changes nothing |
| Frontend.PageWindowBounds | script.js:246-255 | at most five numbered pages, all within `[1, total]`, and they include the current page when it is a real page |
| Frontend.OneActivePage | script.js:249-255 | exactly one numbered button is active when the current page is a real page, and none otherwise |
| Frontend.DisplayPagination | script.js:228-267 | no buttons when there is at most one page; otherwise first and previous (disabled exactly on page 1), the numbered pages, then next and last (disabled exactly on the last page) |
| Frontend.FormAcceptedIff | script.js:107-110 | the form is accepted exactly when name, email, title and value are all present and non-empty |
| Frontend.ListView.constructor | script.js:5-6 | the view starts on page 1 with no filter |
| Frontend.ListView.OnFilterChange | script.js:30-34 | choosing a filter keeps it, goes back to page 1, and requests page 1 of the filtered list |

## Left out

- Files, git and the database are modelled by their state and outcomes, not their processes. `os.listdir`, `os.stat` and `open` are input data. The success of `git add`, `git commit`, the query, the `open`, the `json.dump` and the database commit are boolean parameters.
- The clocks (`utcnow`, `now`) are parameters, as are the encoded file size and the file times.
- JSON encoding is not modelled: `json.dump` with `indent` and `ensure_ascii`, and the `json.dumps`/`json.loads` of `dados_mercadopago`. A file holds a decoded value or an undecodable text, and the column holds the value whose text it stores.
- `valor` is a real number standing for the float. Float arithmetic and `float()` conversion are not modelled.
- Restore.Required: a required field present with the wrong JSON type, or null, is rejected. The program hands it to the `Cobranca` constructor and on to the database, whose typing and coercion are out of scope.
- Restore.Optional: a `.get` field holding something other than a string or null (for example a numeric `mercadopago_id`) is rejected, for the same reason.
- Restore.RequiredNumber: a `valor` that is null or not a JSON number (for example a numeric string) is rejected, for the same reason.
- Restore.EntryRef: an `external_reference` that is null or not a string is rejected, where the program passes it on to the lookup query.
- Records are values. Object identity exists only in `CobrancaModel.Entity`; the ORM's dirty tracking and `onupdate` are not modelled, because the service never updates a stored row.
- The status column accepts any string, as the code does. The five statuses are only the comment's list, so no operation is restricted to them.
- Error message texts of raised exceptions (`str(e)`) are reduced to error kinds.
- MercadoPago.BuildPaymentData assumes the dictionary has the keys it subscripts and a non-null name. A missing key or `None` raises before any SDK call, which the model does not represent.
- MercadoPago.BuildPaymentData: uses the corrected first name (see Findings). As written, a non-empty name with no tokens raises `IndexError` before the payment data is built; that half is `MercadoPago.FirstNameAsWritten`.
- RecordStore.Store.Commit: one clock reading stands for every `default=datetime.utcnow` of the flushed rows. The program calls the clock once per column of each row as the row is flushed, so its stamps can differ between rows and between the two columns of one row.
- RecordStore.Store.Commit: a uniqueness violation is reported at the commit. In the program the autoflush of the next lookup can raise it earlier. The restore fails either way and rolls back; only the reported error kind can differ, when a later entry would also have failed.
- Restore.ExportRestoreRoundTrip: states equal creation and update stamps for all restored rows, which follows from the single clock reading of `Store.Commit` above.
- BackupServiceModel.BackupService.constructor: `os.makedirs` cannot fail in the model. In the program it can raise (permission denied, read-only mount), and then the service is not constructed.
- FileSystem.Disk.EnsureDirectory: always succeeds, for the same reason.
- The Mercado Pago SDK calls are not modelled. Their replies, or whether they raised, are parameters.
- Environment variables (`WEBHOOK_URL`, `FRONTEND_URL`, `WEBHOOK_SECRET`) are parameters.
- The 30-day expiration dates of the preference are reduced to the `expires` flag.
- HMAC-SHA256 and `compare_digest` are a function parameter `mac`. The constant-time aspect of the comparison is not modelled.
- Frontend.StatusText: a status naming an inherited property of a JavaScript object (such as `constructor`) would return that property. The model returns the status unchanged.
- The DOM, `fetch`, toasts, timers and `toLocaleString` formatting in script.js are not modelled. Only the state and values they carry are.
- `email_service.py` (SMTP and templates) and `backup.py` (Flask routes) are not part of this model.
- Concurrency between exports and restores is not modelled; the service is single-writer.
- RecordStore.Store.Rows, RecordStore.Store.UpdatedSince: return the rows in insertion (primary-key) order. `Cobranca.query.all()` and the filtered query of the latest export have no `order_by`, so the program does not request an order and a database need not return one (after an update, or on another engine). The order claims of ExportFull, ExportLatest, RecordStore.SelectUpdatedSinceOrder and Restore.ExportRestoreRoundTrip rest on this choice.

## Findings

| source | as written | input that shows it | evidently intended | confidence | as-written member | corrected member |
|---|---|---|---|---|---|---|
| mercadopago_service.py:38 | `cliente_nome.split()[0] if cliente_nome else ""` guards on the name being non-empty, not on it having a token | `cliente_nome = " "`: truthy, but `split()` is `[]`, so `[0]` raises `IndexError` and payment creation fails | `first_name` is `""` for any name with no tokens, as it is for the empty name | not executed | MercadoPago.FirstNameAsWritten (shown by MercadoPago.WhitespaceNameRaises) | MercadoPago.FirstName (MercadoPago.FirstNameCorrected) |
