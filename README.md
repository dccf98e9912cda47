# Materials pipeline of the electrical-design back end, in Dafny

This project models the materials pipeline of the Engenharia Pro back end. The pipeline has four stages:

1. **Catalogue sync.** A headerless CSV kit catalogue (blocks of items under "… BRAÇO J" kit headers) is read into the SQLite `materiais` table. This happens when a change-detection fingerprint kept in `sync_metadata` is out of date.
2. **Consolidation.** The material bundles stored with a project's traction calculations are merged into one bill of materials.
3. **Budget.** The bill of materials is priced against the catalogue table and totalled.
4. **Checks.** Pre-export validation and a technical audit are run on the result.

Smaller helpers around the pipeline are modelled too: the PDF text filter, the spreadsheet row shaping, the SQL backup script, and the global error middleware.

Each core source file is one module. Each module sits in its own file:

| module | file |
|---|---|
| `SyncService` | `sync_service.dfy` |
| `MaterialSyncService` | `material_sync_service.dfy` |
| `MaterialService` | `material_service.dfy` |
| `ReportingService` | `reporting_service.dfy` |
| `BudgetService` | `budget_service.dfy` |
| `ValidatorService` | `validator_service.dfy` |
| `AuditService` | `audit_service.dfy` |
| `DataTransformer` | `data_transformer.dfy` |
| `BackupService` | `backup_service.dfy` |
| `ErrorHandler` | `error_handler.dfy` |

Shared modules carry what several services use:

- `Common`: Option and Result.
- `Text`: JavaScript white space, plus `trim`, `includes`, `replace` with a one-character pattern, `join` and `split`.
- `Numbers`: the decimal prefix parser of `parseFloat`, the `toFixed(2)` rounding and rendering, and decimal rendering of naturals.
- `CsvRows`: the row model, the trimmed cells, and the kit-header and item-row tests shared by the three catalogue parsers.
- `Catalog`: the two tables, as a `Database` class whose fields the sync methods update.

The services work by changing state step by step. Each of them is modelled the same way:

- a `method` whose loops mirror the source's loops (row handlers, `+=` accumulators, nested insert loops);
- that method is proved equal to a specification function;
- lemmas state what the source promises about that function.

The state-changing sync methods take a `Catalog.Database` and state the whole new state of its two fields.

## Model

| member | source | states |
|---|---|---|
| CsvRows.KitAfter | src/backend/services/SyncService.js:85-89 | the current kit, once known, is a non-empty name that contains "BRAÇO J" |
| CsvRows.KitUnchangedWithoutHeader | src/backend/services/SyncService.js:86-98 | rows that are not kit headers, blank and half-filled ones included, leave the current kit unchanged: a block ends only at the next header |
| CsvRows.KitAfterIsLastHeader | src/backend/services/MaterialSyncService.js:76-80 | the current kit is the name in the last header read, and there is none exactly when no header has been read |
| SyncService.Quantity | src/backend/services/SyncService.js:96 | a stored quantity is never zero |
| SyncService.QuantityDefaults | src/backend/services/SyncService.js:96 | an empty quantity text and "0" both become 1 |
| SyncService.QuantityOfNatural | src/backend/services/SyncService.js:96 | a positive whole number is read as itself |
| SyncService.QuantityOfDecimalComma | src/backend/services/SyncService.js:96 | "2,5" is read as the decimal 2.5, the same as "2.5", whenever it is not zero |
| SyncService.CommaBecomesPoint | src/backend/services/SyncService.js:96 | the replaced ',' is the decimal comma after the whole part |
| SyncService.ParseCsv | src/backend/services/SyncService.js:73-103 | the row handler, with its `kitAtual` state, computes the records of the rows in row order |
| SyncService.RecordsUpToSpec | src/backend/services/SyncService.js:91-98 | at most one record per row; each has a non-empty code and description, a non-zero quantity, and a kit name containing the marker |
| SyncService.NoRecordsBeforeFirstHeader | src/backend/services/SyncService.js:91 | rows before the first kit header produce no record |
| SyncService.RecordCarriesLastHeader | src/backend/services/SyncService.js:86-98 | an item row produces the record of the most recent header above it, its trimmed code and description, and its quantity |
| SyncService.RecordsStep | src/backend/services/SyncService.js:86-98 | a header row moves the current kit and produces no record; any other row appends its record, if it has one |
| SyncService.FirstReadError | src/backend/services/SyncService.js:46-50 | there is no read error exactly when every file is readable |
| SyncService.FirstReadErrorOfPrefix | src/backend/services/SyncService.js:46-50 | the first unreadable file decides the error for the whole listing |
| SyncService.ParseAll | src/backend/services/SyncService.js:46-50 | a read error rejects with the first such error; otherwise each file's records are appended in listing order, and each file starts with no current kit |
| SyncService.CsvFiles | src/backend/services/SyncService.js:21 | the kept entries are exactly the listing's entries whose names end in ".csv" |
| SyncService.CsvFilesConcat | src/backend/services/SyncService.js:21 | filtering two listings in a row gives the first's CSV entries followed by the second's, so the listing order is kept |
| SyncService.CsvFilesSingle | src/backend/services/SyncService.js:21 | one entry is kept, once, exactly when its name ends in ".csv" |
| SyncService.ComputeFingerprint | src/backend/services/SyncService.js:29-35 | the `+=` loop builds the concatenation of `name:mtime;` over the files in listing order |
| SyncService.FingerprintDetectsChange | src/backend/services/SyncService.js:29-42 | when no name or mtime holds ':' or ';', equal fingerprints mean the same files with the same mtimes in the same order |
| SyncService.SplitFingerprint | src/backend/services/SyncService.js:33 | splitting the fingerprint on ';' gives back each file's `name:mtime` |
| SyncService.StoredAll | src/backend/services/SyncService.js:53-57 | one row per record, in order, with no price and the schema's currency default |
| SyncService.SyncMaterialsWithDb | src/backend/services/SyncService.js:19-68 | the table and metadata after the sync, and its outcome, are as `Sync` describes |
| SyncService.SyncWithoutCsvFiles | src/backend/services/SyncService.js:21-26 | with no CSV file, neither the table nor the stored fingerprint changes |
| SyncService.SyncThenSyncIsNoOp | src/backend/services/SyncService.js:37-60 | after a rebuild, or after finding the table current, the same listing syncs as a no-op. A rebuild holds exactly the parsed records, in order, and no prices: prices stored earlier are dropped |
| Catalog.FirstWithCodeSpec | src/backend/services/BudgetService.js:29-33 | the lookup finds nothing exactly when no row has the code; otherwise it returns the first such row in table order |
| Catalog.Database.Metadata | src/backend/services/SyncService.js:37 | the stored value for a key, and None exactly when the key is absent |
| Catalog.Database.FindByCode | src/backend/services/BudgetService.js:29-33 | the scan returns the first row with the code |
| Catalog.Database.DeleteAllMaterials | src/backend/services/SyncService.js:54 | the table is emptied and the metadata kept |
| Catalog.Database.InsertMaterials | src/backend/services/SyncService.js:56 | the rows are appended in order and the metadata kept |
| Catalog.Database.InsertMaterial | src/backend/services/MaterialSyncService.js:46 | one row is appended and the metadata kept |
| Catalog.Database.UpsertMetadata | src/backend/services/SyncService.js:59 | one key is set and the table kept |
| MaterialSyncService.Find | src/backend/services/MaterialSyncService.js:78-83 | a property's position, which is the first with that name, or None exactly when no property has it |
| MaterialSyncService.AssignLookup | src/backend/services/MaterialSyncService.js:78 | after `index[k] = items`, `index[k]` reads `items` and every other key reads as before |
| MaterialSyncService.AssignNames | src/backend/services/MaterialSyncService.js:78 | reassigning an existing key keeps the enumeration order; a new key is enumerated last |
| MaterialSyncService.PushLookup | src/backend/services/MaterialSyncService.js:83-87 | a push appends to one kit's list and leaves the others alone |
| MaterialSyncService.ItemOf | src/backend/services/MaterialSyncService.js:83-87 | the quantity text is never empty: an empty column 3 becomes "1" |
| MaterialSyncService.ParseCsv | src/backend/services/MaterialSyncService.js:64-93 | the row handler, with its `currentKit` state, builds the index of the rows |
| MaterialSyncService.CurrentKitListed | src/backend/services/MaterialSyncService.js:82-83 | whenever there is a current kit, the index has a list for it, so every push finds one |
| MaterialSyncService.KitOrder | src/backend/services/MaterialSyncService.js:76-80 | kits are enumerated once each, in the order their names first appear as headers |
| MaterialSyncService.KitPresent | src/backend/services/MaterialSyncService.js:76-80 | a kit has a list exactly when some header names it |
| MaterialSyncService.NothingBeforeFirstHeader | src/backend/services/MaterialSyncService.js:82 | rows before the first header leave the index empty |
| MaterialSyncService.ItemsAfterLastHeader | src/backend/services/MaterialSyncService.js:76-88 | a kit's list holds exactly its item rows after its last header, in file order; a repeated header discards the earlier items |
| MaterialSyncService.HeaderNamesSpec | src/backend/services/MaterialSyncService.js:76-80 | the reference kit order is free of duplicates and names exactly the headers read |
| MaterialSyncService.KitRows | src/backend/services/MaterialSyncService.js:45-47 | one table row per item, in list order, under the kit's name |
| MaterialSyncService.IndexRowsMembers | src/backend/services/MaterialSyncService.js:44-48 | a row is inserted exactly when some kit of the index lists its item |
| MaterialSyncService.InsertKit | src/backend/services/MaterialSyncService.js:45-47 | the inner loop appends the kit's rows and keeps the metadata |
| MaterialSyncService.InsertIndex | src/backend/services/MaterialSyncService.js:44-48 | the outer loop appends the rows of every kit, in enumeration order |
| MaterialSyncService.SyncMaterialsFromCsv | src/backend/services/MaterialSyncService.js:13-59 | the table and metadata after the sync, and its outcome, are as `SyncFromCsv` describes |
| MaterialSyncService.SyncWithoutChange | src/backend/services/MaterialSyncService.js:16-31 | a missing file, or an mtime equal to the stored `csv_mtime`, leaves both tables unchanged |
| MaterialSyncService.SyncRebuild | src/backend/services/MaterialSyncService.js:35-52 | a rebuild replaces the whole table with the index's rows and stores the mtime; syncing the same file again is a no-op |
| MaterialService.BuscarMateriaisNoCsv | src/backend/services/MaterialService.js:5-58 | a missing file rejects with "Banco de dados de materiais não encontrado."; a read error rejects with "Erro ao ler arquivo CSV: " and the error; otherwise the result is the captured items |
| MaterialService.CapturingIff | src/backend/services/MaterialService.js:27-36 | capture is on exactly when a row naming the kit has been read and no other kit's header has been read since |
| MaterialService.CapturedItemsShape | src/backend/services/MaterialService.js:38-45 | every returned item has a code and a description; its code is neither the kit's name nor another kit's name |
| MaterialService.CapturedConcat | src/backend/services/MaterialService.js:27-30 | a kit name that reappears after another kit's header returns both blocks' items, concatenated |
| MaterialService.CapturePrefix | src/backend/services/MaterialService.js:19-46 | reading further rows never changes what the earlier rows returned |
| MaterialService.UnknownKitResolvesEmpty | src/backend/services/MaterialService.js:47-53 | a kit that no row names resolves with an empty list, not a rejection |
| ReportingService.FindCode | src/backend/services/ReportingService.js:60-61 | `aggregationMap.has` and `get`: the entry of a code, or None exactly when there is none |
| ReportingService.AddAllEntry | src/backend/services/ReportingService.js:57-72 | a code has an entry exactly when some item carries it; the entry holds the first description seen, the sum of the quantities, and unit "UN" |
| ReportingService.AddAllDistinct | src/backend/services/ReportingService.js:58-71 | at most one entry per code |
| ReportingService.SumForSwap | src/backend/services/ReportingService.js:60-70 | swapping two runs of items leaves every code's total unchanged |
| ReportingService.SumForPerm | src/backend/services/ReportingService.js:60-70 | any reordering of the items (equal multisets) leaves every code's total unchanged |
| ReportingService.AllItemsPerm | src/backend/services/ReportingService.js:43-57 | reordering the calculations reorders the items they contribute, as a multiset |
| ReportingService.CalculationOrderIrrelevant | src/backend/services/ReportingService.js:43-70 | a code's total quantity does not depend on the order in which the calculations are read |
| ReportingService.AddAllConcat | src/backend/services/ReportingService.js:43-57 | aggregating bundle after bundle is aggregating their concatenation |
| ReportingService.SortByItemSpec | src/backend/services/ReportingService.js:76-78 | the sort returns a permutation of its input in ascending order of description |
| ReportingService.AddBundle | src/backend/services/ReportingService.js:57-72 | the inner loop adds one bundle's items to the aggregation map |
| ReportingService.GenerateMaterialReport | src/backend/services/ReportingService.js:18-86 | the loops compute `MaterialReport`; absent, malformed and non-array bundles are skipped |
| ReportingService.MaterialReportSpec | src/backend/services/ReportingService.js:21-86 | an unknown project fails with "Projeto não encontrado."; `totalCalculos` counts every calculation, skipped ones included; the lines are sorted, hold one entry per code with the first description, the total quantity and "UN", and the early return without calculations agrees with this |
| BudgetService.CalculateProjectBudget | src/backend/services/BudgetService.js:17-74 | the loop, with its table lookups and running total, computes `ProjectBudget` |
| BudgetService.PricedLinesSpec | src/backend/services/BudgetService.js:27-55 | one item per consolidated line, in order, each priced from the first table row with its code |
| BudgetService.UnpricedLine | src/backend/services/BudgetService.js:35-43 | a line with no catalogue row, or with a null or zero price, has price 0 and subtotal 0 |
| BudgetService.SubtotalSumError | src/backend/services/BudgetService.js:43-54 | the sum of the rounded subtotals differs from the exact cost by at most half a cent per line |
| BudgetService.BudgetOfSpec | src/backend/services/BudgetService.js:27-68 | the budget currency is "EUR"; `totalItems` counts the items, one per line; the total is the sum of the line subtotals, which rounding to two decimals leaves unchanged, and it is within half a cent per line, plus half a cent, of the exact cost |
| BudgetService.ProjectBudgetSpec | src/backend/services/BudgetService.js:20-68 | a successful report gives a budget in "EUR" with one item per consolidated line, whose total is the sum of the line subtotals and is within half a cent per line, plus half a cent, of the exact cost |
| BudgetService.Round2IsCents | src/backend/services/BudgetService.js:43 | a subtotal rounded to two decimals is a whole number of cents |
| BudgetService.SumIsCents | src/backend/services/BudgetService.js:54-58 | the running total of rounded subtotals is a whole number of cents, so the final `toFixed(2)` leaves it as it is |
| BudgetService.ProjectBudgetError | src/backend/services/BudgetService.js:17-73 | a failing material report fails the budget with the same message |
| ValidatorService.ValidarProjetoParaExportacao | src/backend/services/ValidatorService.js:14-62 | errors and alerts are pushed in the source's order; `valido` holds exactly when there are no errors |
| ValidatorService.QuantityErrorsSpec | src/backend/services/ValidatorService.js:30-42 | an error naming an item's code and quantity is present exactly when that item's quantity is not positive; there are none exactly when every quantity is positive |
| ValidatorService.QuantityErrorsConcat | src/backend/services/ValidatorService.js:30-42 | the errors of two runs of items are those of the first followed by those of the second, so errors keep item order |
| ValidatorService.QuantityErrorsSingle | src/backend/services/ValidatorService.js:38-40 | one item raises exactly one error when its quantity is not positive and none otherwise |
| ValidatorService.ValidIff | src/backend/services/ValidatorService.js:21-49 | valid exactly when there are items, every quantity is positive and the project reference is complete; the cost alert is raised exactly when `totalGeral <= 0`, whatever the validity |
| AuditService.AuditProject | src/backend/services/AuditService.js:15-72 | the two loops compute `Audit` |
| AuditService.SpanIssuesSpec | src/backend/services/AuditService.js:30-44 | a span issue is raised for exactly the calculations with span > 50 (null counts as 0) and materials null, "" or "[]"; no more issues than calculations, each with rule MISSING_STRUCTURE_LONG_SPAN and severity HIGH |
| AuditService.SpanIssuesConcat | src/backend/services/AuditService.js:30-44 | the span issues of two runs of calculations are those of the first followed by those of the second, so issues keep calculation order |
| AuditService.SpanIssuesSingle | src/backend/services/AuditService.js:34-43 | one calculation raises exactly one span issue when it is a long span without materials and none otherwise |
| AuditService.VoltageIssuesSpec | src/backend/services/AuditService.js:53-64 | a voltage issue is raised for exactly the calculations with a drop above 5; no more issues than calculations, each with rule CRITICAL_VOLTAGE_DROP and severity MEDIUM |
| AuditService.VoltageIssuesConcat | src/backend/services/AuditService.js:53-64 | the voltage issues of two runs of calculations are those of the first followed by those of the second |
| AuditService.VoltageIssuesSingle | src/backend/services/AuditService.js:54-63 | one calculation raises exactly one voltage issue when its drop exceeds 5 and none otherwise |
| AuditService.AuditSpec | src/backend/services/AuditService.js:20-72 | an unknown project fails; `totalIssues` is the number of issues; traction issues come before tension issues |
| DataTransformer.FilterSpec | src/backend/utils/DataTransformer.js:39 | only printable ASCII and white space survive, as a subsequence of the input |
| DataTransformer.CleanStringSpec | src/backend/utils/DataTransformer.js:37-40 | null and "" give ""; clean input is returned unchanged; the output is a subsequence of kept characters; every kept character of the input survives, between the filtered text before it and after it |
| DataTransformer.FilterConcat | src/backend/utils/DataTransformer.js:39 | the filter distributes over concatenation, so kept characters survive in their order wherever they stand |
| DataTransformer.FilterSingle | src/backend/utils/DataTransformer.js:39 | one character is kept exactly when it is printable ASCII or white space |
| DataTransformer.CleanStringIdempotent | src/backend/utils/DataTransformer.js:39 | cleaning twice is cleaning once |
| DataTransformer.TransformPointwise | src/backend/utils/DataTransformer.js:22-31 | one row per material, in the same order |
| DataTransformer.ExportRowSpec | src/backend/utils/DataTransformer.js:23-30 | code, description and quantity are copied; the unit defaults to "UN" and the price to 0; the subtotal text reads back as the cost rounded to two decimals |
| Numbers.ParseToFixed2 | src/backend/services/BudgetService.js:43 | `parseFloat(x.toFixed(2))` is `x` rounded to two decimals |
| Numbers.Round2 | src/backend/services/BudgetService.js:58 | rounding moves a value by at most half a cent |
| Numbers.Round2Idempotent | src/backend/services/BudgetService.js:43-58 | rounding a rounded amount leaves it unchanged |
| Text.TrimIsSlice | src/backend/services/SyncService.js:81-83 | trimming cuts only white space from each end, and leaves no white space at either end |
| Text.ContainsIff | src/backend/services/SyncService.js:86 | `includes` finds a pattern exactly when it occurs at some position |
| Text.SplitJoin | src/backend/middleware/errorHandler.js:23 | splitting a join on its separator recovers the parts, when no part holds the separator |
| BackupService.SanitizeTimestampSpec | src/backend/services/BackupService.js:17 | the length is kept; every ':' and '.' becomes '-'; every other character is kept |
| BackupService.EscapeRoundTrip | src/backend/services/BackupService.js:45 | an escaped text has quotes only in adjacent pairs, and halving them gives the original text back |
| BackupService.UnescapeRoundTrip | src/backend/services/BackupService.js:45 | every literal body with paired quotes is the escaping of the text it reads as |
| BackupService.LiteralSpec | src/backend/services/BackupService.js:43-47 | null renders as NULL; a text renders single-quoted, with a paired-quote body that reads back as the text; any other value renders as itself |
| BackupService.KeysValuesSpec | src/backend/services/BackupService.js:42-47 | the column list and the value list have one entry per column, in the row's key order |
| BackupService.InsertLinesSpec | src/backend/services/BackupService.js:41-50 | one INSERT per row, in row order |
| BackupService.DumpLayout | src/backend/services/BackupService.js:33-52 | the header comes first; then `projects`, then `historico_calculos`, each as a "-- Table:" comment, its INSERTs and a blank line |
| BackupService.ScriptSplitsIntoLines | src/backend/services/BackupService.js:33-52 | when no value holds a line break, the script splits into exactly those lines, one INSERT per line |
| BackupService.AppendInserts | src/backend/services/BackupService.js:41-50 | the inner `+=` loop appends each row's INSERT and a line break |
| BackupService.ExportDataToSql | src/backend/services/BackupService.js:15-57 | the file name and the script built by the nested loops |
| ErrorHandler.HandleErrorSpec | src/backend/middleware/errorHandler.js:18-48 | a ZodError gives 400 whatever its code, with the details of its issues, or none without issues; failing that, a code starting with "SQLITE_" gives 500 and echoes the code; anything else gives its status code, also in the body; no response reports success |
| ErrorHandler.StatusCodeSpec | src/backend/middleware/errorHandler.js:39 | the status is 500 exactly when the error's status is absent, 0 or 500; any other status passes through |
| ErrorHandler.GenericMessageSpec | src/backend/middleware/errorHandler.js:40-42 | at 500 the fixed internal message is sent, and otherwise the error's own message |
| ErrorHandler.DetailsSpec | src/backend/middleware/errorHandler.js:22-25 | one detail per issue, in order, with the path joined by '.' and the issue's message |
| ErrorHandler.CampoSplits | src/backend/middleware/errorHandler.js:23 | when no key on the path holds a dot, `campo` splits back into the path's steps |

## Left out

- File system and CSV tokenisation are not modelled. Directory listings, file contents, `existsSync`, `statSync` and the csv-parser library become inputs: a listing of entries, and rows as sequences of column strings or a read error. Modification times are opaque strings.
- The database driver is not modelled. Drizzle and better-sqlite3 statements become the methods of `Catalog.Database`, and each transaction is an atomic update of that object. The delete-then-insert loops have no failure path inside the transaction.
- The columns are assumed as follows:
  - The materials table for the rebuild in `SyncService` follows the schema declaration (src/backend/db/schema.js:53-63): kit name, code, description, quantity, and a nullable price and currency. The table created at src/backend/db/client.js:74-81 has no price or currency columns.
  - The rebuild inserts no price. It takes the currency default "BRL" of schema.js:60.
  - The unique index of schema.js:62 is not modelled: `uniqueIndex` is never imported at schema.js:1, and neither parser removes duplicate rows.
  - `MaterialSyncService` writes rows of its own shape (`kit_name`, `codigo`, `item`, `qtd`; src/backend/services/MaterialSyncService.js:39). `Catalog.MaterialRow.Indexed` carries them as written.
- IEEE floating point is not modelled. Quantities and prices are exact reals. NaN, infinities and binary rounding are out, and so is `toFixed` for magnitudes of 1e21 and above.
  - `parseFloat` is modelled as the longest decimal-literal prefix. `None` stands for NaN. Only `Infinity` is not recognised. A hexadecimal text such as "0x1A" reads as its decimal prefix 0, as in JavaScript.
  - `Number(item.quantidade)` in the report is taken to be the bundle's numeric quantity.
- ValidatorService.ValidarProjetoParaExportacao: the `isNaN(item.subtotal)` check (src/backend/services/ValidatorService.js:33-35) is not modelled, because NaN has no counterpart among reals.
- ValidatorService.Alerts: a `totalGeral` that is null or undefined is modelled as absent and raises no alert. In JavaScript, `null <= 0` would raise one.
- `Number` to text in the template messages is a parameter: the `render` argument of `ValidatorService.ErrorMessage`. `AuditService.Issue` omits the `message` text (a template over the span or drop value) and keeps rule, severity, title, entity id and entity type.
- `JSON.parse` of a stored bundle is not modelled. The stored value is the `ReportingService.Bundle` datatype (absent, malformed, not an array, or items), and items are read with a `quantidade` field. Bundles saved elsewhere in the application carry `qtd`; that is not part of this model.
- `localeCompare` is not modelled. The sort in `ReportingService` takes the comparison as a parameter required to be a total preorder. The sort is modelled as an insertion sort that places an entry before the equal entries after it, so it is stable, like `Array.prototype.sort`; `ReportingService.SortByItemSpec` states a sorted permutation, and stability itself is not stated as a lemma.
- `Intl.NumberFormat` is not modelled beyond the null case of `formatCurrency`. `DataTransformer.FormatCurrency` answers the fixed text "R$ 0,00" for null or undefined, and otherwise `DataTransformer.Formatted.LocaleFormatted`, which stands for the locale rendering; there is nothing to prove about it beyond that case split, so it has no row above.
- Catalog.FirstWithCode: the price lookup `SELECT … WHERE codigo = ? LIMIT 1` has no `ORDER BY` (src/backend/services/BudgetService.js:29-33); the model assumes SQLite returns the rows of `materiais` in insertion order, so the first row in table order is the one found.
- The following `BackupService` effects are not modelled: `os.homedir`, `path.join` and `fs.writeFileSync`. `ExportDataToSql` returns the file name and the script, and the clock reading is a parameter. Non-text, non-null values (numbers, buffers) are carried as the text JavaScript's string conversion gives them.
- `AuditService.Audit` takes the report timestamp as a parameter.
- The following error paths and side effects are not modelled: logging in every service, the `catch`/rethrow blocks, whose only effect is the log line, and the unknown-kit warning in `MaterialService`.
  - A read error in `SyncService` and `MaterialSyncService` becomes a `Failed` outcome that leaves the database untouched.
- `ErrorHandler.AppError.code` is an optional string. A truthy `code` that is not a string makes `err.code.startsWith` throw inside the handler (src/backend/middleware/errorHandler.js:30); that path is not modelled.
- A path step of a Zod issue is a property name or a natural index, and an index renders in decimal. `ErrorHandler.Body.GenericBody` names its status field `statusCode`; that field is sent as the JSON `code` (src/backend/middleware/errorHandler.js:47).
- The test at tests/MaterialService.test.js:23-27 expects an unknown kit to be rejected. The code resolves with an empty list (src/backend/services/MaterialService.js:47-53), and the model follows the code (`MaterialService.UnknownKitResolvesEmpty`). The examples at tests/MaterialService.test.js:7-21 depend on a mock catalogue file that is not part of this model.
- `Numbers.Cost` is the exact product of quantity and price. It is computed by `Numbers.Product`, whose extra sequence argument only controls how far the verifier unfolds the multiplication; `Numbers.CostIsProduct` states that the value is the plain product.
