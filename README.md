# I.A-Sarah core, modelled in Dafny

I.A-Sarah is a small desktop application that personal trainers use to keep track of
their students (`alunos`) and of those students' training plans (`planos`). It can also
export a plan's exercises as PDF, CSV or XLSX. This project models the parts of it
that hold state or compute something precise, and proves properties about them:

- **Record store.** Both versions of the SQLite store (`db.py` and the older `src/db.py`)
  are modelled by one class, `RecordStore.Database`. It holds:
  - the two rowid tables, as maps from id to row;
  - the AUTOINCREMENT counters;
  - `user_version`;
  - a schema catalog (`Schema`), so that `CREATE TABLE IF NOT EXISTS`, `ALTER TABLE ... ADD COLUMN`
    and the OperationalError of a statement that names a missing table or column can all be stated.

  The newer `init_db` is a migration loop (`Database.InitDb`). The older one is a fixed
  sequence of steps that tolerates "duplicate column" errors (`LegacyDb.InitDb`). Listing
  order follows SQLite: ascending rowid scans, and `ORDER BY nome` under the BINARY
  collation (`Collation`).
- **Configuration store** (`ConfigManager`, `LegacyConfigManager`). The JSON settings file is
  missing, unreadable, or holds text. JSON itself is an abstract codec that round-trips every
  value Python can build (`JsonFile`), and `dict.update` is modelled on insertion-ordered
  dicts (`OrderedDict`).
- **Plugin loader** (`PluginLoader`). This covers the per-group cache, the
  `DISABLED_PLUGINS` filter, entry points that fail to load, and callbacks that raise.
  Discovered entry points and the environment are inputs.
- **Exporter registry and row shaping** (`Exporters`). This covers the module-level registry
  filled with the three built-ins and then with plugins, the `get_exporter` lookup, and the
  rows the CSV and XLSX exporters write.
- **PDF text** (`Exercises`, `PdfUtils`). This covers the line printed per exercise, which
  is the same in all three PDF writers, and `sanitize_filename`. NFKD normalisation is a
  per-character decomposition passed in as a parameter.

The application's behaviour where its design and its code differ: the `planos` table
declares `ON DELETE CASCADE`, and the intended behaviour is that deleting a student deletes
their plans and that a plan for an unknown student is refused. But `PRAGMA foreign_keys = ON`
is only issued on the `init_db` connection, and SQLite enforces foreign keys per connection.
The CRUD connections therefore neither cascade nor check `aluno_id`. The model follows the
code:
- `RemoverAluno` leaves the student's plans in place;
- `AdicionarPlano` accepts any `aluno_id`;
- `ListarPlanosRecentes` skips orphaned plans through its inner join.

Likewise, `load_config` returns `{}` for a missing file without writing any defaults to disk,
and the model follows that.

## Model

| member | source | states |
|---|---|---|
| OrderedDict.Put | src/ia_sarah/core/plugin_loader.py:60 | `d[k] = v`; its contract is stated by GetPutSame, GetPutOther, KeysPut and PutKeepsDistinct |
| OrderedDict.Update | src/ia_sarah/core/adapters/utils/config_manager.py:71 | `d.update(u)`; its contract is stated by GetUpdate, UpdateKeepsDistinct and UpdateOfEmpty |
| OrderedDict.GetUpdate | src/ia_sarah/core/adapters/utils/config_manager.py:71 | after `d.update(u)`, a key of `u` reads as in `u` and every other key reads as in `d` |
| OrderedDict.UpdateKeepsDistinct | src/ia_sarah/core/adapters/utils/config_manager.py:71 | `d.update(u)` never produces a repeated key |
| OrderedDict.UpdateOfEmpty | src/ia_sarah/core/adapters/utils/config_manager.py:67-72 | updating the `{}` that `load_config` falls back to (line 36) with `u` gives exactly `u`, in `u`'s key order |
| OrderedDict.GetPutSame | src/ia_sarah/core/plugin_loader.py:60 | after `d[k] = v`, `d[k]` reads `v` |
| OrderedDict.GetPutOther | src/ia_sarah/core/plugin_loader.py:60 | after `d[k] = v`, every other key reads as before |
| OrderedDict.KeysPut | src/ia_sarah/core/plugin_loader.py:60 | assignment keeps the key order and appends a new key last |
| OrderedDict.PutKeepsDistinct | src/ia_sarah/core/plugin_loader.py:60 | assignment never produces a repeated key |
| OrderedDict.GetFound | src/ia_sarah/core/adapters/services/exporters.py:82 | `ex.get(k)` finds a value exactly when `k` is one of the dict's keys |
| Collation.BinaryLeIsMemcmp | src/ia_sarah/core/adapters/repositories/db.py:76 | the order used for `ORDER BY nome` is SQLite's BINARY collation: memcmp order, a proper prefix first |
| Collation.BinaryLeReflexive | src/ia_sarah/core/adapters/repositories/db.py:76 | every name sorts no later than itself |
| Collation.BinaryLeTotal | src/ia_sarah/core/adapters/repositories/db.py:76 | any two names are comparable |
| Collation.BinaryLeTransitive | src/ia_sarah/core/adapters/repositories/db.py:76 | the order is transitive |
| Collation.BinaryLeAntisymmetric | src/ia_sarah/core/adapters/repositories/db.py:76 | two names each sorting no later than the other are equal |
| Schema.CreateIfNotExists | src/db.py:30-45 | an existing table is left exactly as it is; a missing one is created with all its columns; the other table is never touched |
| Schema.AddColumn | src/db.py:47-50 | ADD COLUMN succeeds exactly when the table exists and lacks the column, and then adds only that column |
| Schema.Resolve | src/ia_sarah/core/adapters/repositories/db.py:73-81 | a statement prepares exactly when its table exists and has every column it names; otherwise OperationalError (no such table / no such column) |
| Schema.ApplyAll | src/ia_sarah/core/adapters/repositories/db.py:62-65 | the scripts run in the given order; see Database.InitDb and MigrationsReachLatest |
| Schema.Pending | src/ia_sarah/core/adapters/repositories/db.py:60-65 | the scripts `init_db` runs from a stored version; its contract is stated by PendingSpec and NothingPendingAfterInit |
| Schema.PendingUpToSpec | src/ia_sarah/core/adapters/repositories/db.py:62-63 | the scripts run are exactly those with index above `user_version`, each once, in increasing order |
| Schema.PendingSpec | src/ia_sarah/core/adapters/repositories/db.py:60-65 | `init_db` from version v runs exactly the MIGRATIONS indices above v, in index order |
| Schema.NothingPendingAfterInit | src/ia_sarah/core/adapters/repositories/db.py:60-65 | once the version is max(v, 2), a second `init_db` runs nothing |
| Schema.MigrationsReachLatest | src/ia_sarah/core/adapters/repositories/db.py:16-40 | from version 0 on a file without tables (or with them already current) the two scripts give the full schema |
| Schema.LegacyInit | src/db.py:28-67 | the four steps of the older `init_db`; its contract is stated by LegacyInitSpec and LegacyInitOfEmpty |
| Schema.LegacyInitSpec | src/db.py:28-67 | the older `init_db` leaves both tables present, adds `email` and `data_inicio` when missing, keeps every existing column, and is idempotent |
| Schema.LegacyInitOfEmpty | src/db.py:28-67 | on a new file the older `init_db` builds the full schema |
| RecordStore.ParseColumn | src/ia_sarah/core/adapters/repositories/db.py:43-52 | a column is accepted exactly for the eight names of VALID_UPDATE_FIELDS, under its own name |
| RecordStore.ColumnNamesRoundTrip | src/db.py:15-24 | every allowed column is accepted under its name, and `id` is rejected |
| RecordStore.SetColumn | src/ia_sarah/core/adapters/repositories/db.py:120-124 | `UPDATE alunos SET c = ?` writes that column and leaves every other column unchanged |
| RecordStore.ScanAlunosSound | src/ia_sarah/core/adapters/repositories/db.py:75-77 | every scanned entry is an existing student, projected to (id, nome, email, data_inicio) |
| RecordStore.ScanAlunosAscending | src/ia_sarah/core/adapters/repositories/db.py:75-77 | the rowid scan yields strictly ascending ids |
| RecordStore.ScanAlunosComplete | src/ia_sarah/core/adapters/repositories/db.py:75-77 | every student with an issued id is scanned |
| RecordStore.ScanAlunosCount | src/ia_sarah/core/adapters/repositories/db.py:75-77 | the scan has exactly one entry per student row |
| RecordStore.SortByNome | src/ia_sarah/core/adapters/repositories/db.py:76 | `ORDER BY nome`; its contract is stated by SortByNomeSpec |
| RecordStore.InsertByNomePermutes | src/ia_sarah/core/adapters/repositories/db.py:76 | inserting into the sorted output adds exactly that entry |
| RecordStore.InsertByNomeSorted | src/ia_sarah/core/adapters/repositories/db.py:76 | inserting into a sorted sequence keeps it sorted by nome |
| RecordStore.InsertByNomeDistinct | src/ia_sarah/core/adapters/repositories/db.py:76 | inserting an entry with a new id keeps ids distinct |
| RecordStore.SortByNomeSpec | src/ia_sarah/core/adapters/repositories/db.py:76 | `ORDER BY nome` returns a permutation of its input, sorted by nome, with distinct ids kept distinct |
| RecordStore.ListarAlunosOf | src/ia_sarah/core/adapters/repositories/db.py:71-78 | the rows `listar_alunos` returns; its contract is stated by ListarAlunosSpec |
| RecordStore.ListarAlunosSpec | src/ia_sarah/core/adapters/repositories/db.py:71-78 | the listing holds each student exactly once, projected, sorted by nome under BINARY |
| RecordStore.ScanPlanosSound | src/ia_sarah/core/adapters/repositories/db.py:147-149 | every listed plan exists and belongs to the requested student |
| RecordStore.ScanPlanosAscending | src/ia_sarah/core/adapters/repositories/db.py:148 | plans come in strictly ascending id (`ORDER BY id`) |
| RecordStore.ScanPlanosComplete | src/ia_sarah/core/adapters/repositories/db.py:147-149 | every plan of the requested student is listed |
| RecordStore.ScanRecent | src/ia_sarah/core/adapters/repositories/db.py:215-219 | the join ordered by descending plan id; its contract is stated by ScanRecentSound, ScanRecentDescending and ScanRecentComplete |
| RecordStore.Limit | src/ia_sarah/core/adapters/repositories/db.py:220-222 | `LIMIT n` keeps exactly the first n rows when 0 <= n < count; a negative n, or one at least the row count, keeps every row |
| RecordStore.RecentOf | src/ia_sarah/core/adapters/repositories/db.py:210-224 | the rows `listar_planos_recentes` returns; its contract is stated by RecentSpec |
| RecordStore.ScanRecentSound | src/ia_sarah/core/adapters/repositories/db.py:215-222 | every joined row pairs an existing plan with its existing student's nome |
| RecordStore.ScanRecentDescending | src/ia_sarah/core/adapters/repositories/db.py:215-222 | joined rows come in strictly descending plan id |
| RecordStore.ScanRecentComplete | src/ia_sarah/core/adapters/repositories/db.py:215-222 | every plan whose student exists is in the join; orphaned plans are not |
| RecordStore.RecentSpec | src/ia_sarah/core/adapters/repositories/db.py:210-224 | `LIMIT n` keeps the first n joined rows (all of them when n is negative or larger) |
| RecordStore.PrepareBind | src/ia_sarah/core/adapters/repositories/db.py:88-91 | a statement with one integer parameter fails with the prepare error first, then with OverflowError exactly when the integer is outside [-2^63, 2^63-1] |
| RecordStore.JoinPrepared | src/ia_sarah/core/adapters/repositories/db.py:215-221 | the join prepares exactly when `planos` has id, nome, aluno_id and `alunos` has id, nome; otherwise the first missing table or column |
| RecordStore.Database.CreateTableIfNotExists | src/db.py:30-45 | the catalog after CREATE TABLE IF NOT EXISTS; rows untouched |
| RecordStore.Database.AlterTableAddColumn | src/db.py:47-50 | ADD COLUMN on the catalog, or OperationalError with the catalog unchanged |
| RecordStore.Database.ExecuteScript | src/ia_sarah/core/adapters/repositories/db.py:64 | `executescript` of one migration applies it to the catalog |
| RecordStore.Database.InitDb | src/ia_sarah/core/adapters/repositories/db.py:55-68 | runs exactly the pending scripts in index order and leaves `user_version` at max(v, 2) |
| RecordStore.Database.ListarAlunos | src/ia_sarah/core/adapters/repositories/db.py:71-81 | OperationalError exactly when the statement cannot prepare; otherwise every student exactly once, projected, sorted by nome |
| RecordStore.Database.ObterAluno | src/ia_sarah/core/adapters/repositories/db.py:84-95 | the full row of an existing id, None for a missing id; OperationalError when the statement cannot prepare, else OverflowError when the id does not fit 64 bits |
| RecordStore.Database.AdicionarAluno | src/ia_sarah/core/adapters/repositories/db.py:98-112 | inserts one row (nome, email, today, other columns NULL) under seq+1, an id above every id ever issued; SQLITE_FULL at the largest rowid; nothing changes on error |
| RecordStore.Database.AtualizarAluno | src/ia_sarah/core/adapters/repositories/db.py:115-127 | a name outside the allow-list raises ValueError before any write; then OperationalError or OverflowError as in PrepareBind; otherwise only that column of that row changes, and a missing id changes nothing |
| RecordStore.Database.RemoverAluno | src/ia_sarah/core/adapters/repositories/db.py:130-137 | deletes that row only (a missing id is a no-op); plans are not cascaded; errors as in PrepareBind leave the table unchanged |
| RecordStore.Database.ListarPlanos | src/ia_sarah/core/adapters/repositories/db.py:143-154 | exactly the plans of that student, each once, by ascending id; errors as in PrepareBind |
| RecordStore.Database.AdicionarPlano | src/ia_sarah/core/adapters/repositories/db.py:157-170 | inserts one plan under seq+1, an id above every id ever issued; `aluno_id` is not checked against `alunos`, and one outside 64 bits raises OverflowError with nothing inserted |
| RecordStore.Database.AtualizarPlano | src/ia_sarah/core/adapters/repositories/db.py:173-185 | rewrites nome, descricao and exercicios of that plan only and never its `aluno_id`; a missing id changes nothing; errors as in PrepareBind change nothing |
| RecordStore.Database.RemoverPlano | src/ia_sarah/core/adapters/repositories/db.py:188-195 | deletes that plan only; a missing id is a no-op; errors as in PrepareBind change nothing |
| RecordStore.Database.ContarAlunos | src/ia_sarah/core/adapters/repositories/db.py:198-207 | the number of student rows, equal to the length of `listar_alunos`; error when the table is missing |
| RecordStore.Database.ListarPlanosRecentes | src/ia_sarah/core/adapters/repositories/db.py:210-227 | at most `limit` rows, strictly descending plan ids, each a plan paired with its student's nome; a prefix of the whole join; OperationalError when the join cannot prepare, else OverflowError for a `limit` outside 64 bits |
| LegacyDb.InitDb | src/db.py:26-67 | the older `init_db`, statement by statement, swallowing the duplicate-column OperationalError |
| LegacyDb.InitOfEmptyPrepares | src/db.py:26-67 | after the older `init_db` on a new file every CRUD statement prepares |
| LegacyDb.AddAndGetScenario | tests/test_db.py:9-17 | a student added to a new file reads back with its nome and email, and its id is listed |
| LegacyDb.PlanScenario | tests/test_db.py:20-27 | a plan added for a new student is that student's only plan, under the returned id |
| JsonFile.Document | src/ia_sarah/core/adapters/utils/config_manager.py:31-36 | the loaded document is always a value Python can hold |
| JsonFile.DocumentFallback | src/ia_sarah/core/adapters/utils/config_manager.py:31-36 | a missing, unreadable or corrupt file loads as `{}` |
| JsonFile.DocumentAfterWrite | src/ia_sarah/core/adapters/utils/config_manager.py:39-46 | what `save_config` writes, `load_config` reads back |
| ConfigManager.UpdatedFile | src/ia_sarah/core/adapters/utils/config_manager.py:67-72 | `update_config` raises AttributeError exactly when the loaded document is not an object, and otherwise leaves a file that reads back as the old document merged with the updates |
| ConfigManager.ConfigStore.LoadConfig | src/ia_sarah/core/adapters/utils/config_manager.py:21-36 | returns the decoded file or `{}`, and never writes |
| ConfigManager.ConfigStore.SaveConfig | src/ia_sarah/core/adapters/utils/config_manager.py:39-46 | the file holds exactly the serialized dict |
| ConfigManager.ConfigStore.DeleteConfig | src/ia_sarah/core/adapters/utils/config_manager.py:49-57 | afterwards there is no file; a missing file stays missing |
| ConfigManager.ConfigStore.LoadTheme | src/ia_sarah/core/adapters/utils/config_manager.py:60-64 | the stored theme or "superhero" |
| ConfigManager.ConfigStore.UpdateConfig | src/ia_sarah/core/adapters/utils/config_manager.py:67-72 | load, merge, save; the file is unchanged when the document is not an object |
| ConfigManager.ConfigStore.SaveTheme | src/ia_sarah/core/adapters/utils/config_manager.py:75-78 | `update_config({"theme": t})` |
| ConfigManager.WellFormedUpdate | src/ia_sarah/core/adapters/utils/config_manager.py:71 | merging two dicts gives a dict (no repeated key) |
| ConfigManager.UpdateMerges | src/ia_sarah/core/adapters/utils/config_manager.py:67-72 | after `update_config(u)` a key of `u` reads `u`'s value and every other key keeps its old value |
| ConfigManager.UpdateOfFallback | src/ia_sarah/core/adapters/utils/config_manager.py:31-36 | on a missing, unreadable or corrupt file `update_config(u)` leaves exactly `u` |
| ConfigManager.ThemeLookup | src/ia_sarah/core/adapters/utils/config_manager.py:60-64 | the theme is the stored value, "superhero" when the key or the file is absent, AttributeError for a non-object |
| ConfigManager.SaveThemeThenLoad | src/ia_sarah/core/adapters/utils/config_manager.py:75-78 | `save_theme(t)` then `load_theme()` gives `t`, and every other key is preserved |
| ConfigManager.CrudScenario | tests/test_config_manager.py:9-17 | save, load, save another config, load the theme, delete: the values the store's test expects |
| LegacyConfigManager.ThemeFile.LoadTheme | src/config_manager.py:9-18 | "superhero" for a missing, unreadable or corrupt file; otherwise the stored theme or "superhero" |
| LegacyConfigManager.ThemeFile.SaveTheme | src/config_manager.py:21-24 | the whole file becomes `{"theme": t}` |
| LegacyConfigManager.SaveThemeOverwrites | src/config_manager.py:21-24 | after `save_theme(t)` the theme reads `t` and every other key is gone |
| PluginLoader.Split | src/ia_sarah/core/plugin_loader.py:52 | `split(",")` never returns an empty list |
| PluginLoader.JoinSplit | src/ia_sarah/core/plugin_loader.py:52 | joining the pieces with commas gives the text back |
| PluginLoader.SplitPiecesHaveNoComma | src/ia_sarah/core/plugin_loader.py:52 | no piece contains a comma |
| PluginLoader.DisabledNames | src/ia_sarah/core/plugin_loader.py:52 | the disabled set; its contract is stated by DisabledNamesSpec |
| PluginLoader.DisabledNamesSpec | src/ia_sarah/core/plugin_loader.py:52 | with the variable unset only the empty name is disabled; otherwise exactly its comma-separated pieces |
| PluginLoader.Registry | src/ia_sarah/core/plugin_loader.py:50-63 | the registry the discovery loop builds and caches; its contract is stated by RegistryLookup and RegistryDistinct |
| PluginLoader.LastLoadedSpec | src/ia_sarah/core/plugin_loader.py:54-62 | a name is registered exactly when some entry point of that name is enabled and loads, and it gets the last such object |
| PluginLoader.RegistryLookup | src/ia_sarah/core/plugin_loader.py:54-63 | the cached registry maps each name to its last enabled, loading entry point; a disabled name is absent |
| PluginLoader.RegistryDistinct | src/ia_sarah/core/plugin_loader.py:54-63 | the registry holds each name once |
| PluginLoader.CallbackFailuresSpec | src/ia_sarah/core/plugin_loader.py:64-68 | a name is logged exactly when its callback raised; the loop goes on |
| PluginLoader.Loader.LoadEntrypoints | src/ia_sarah/core/plugin_loader.py:42-68 | the first load of a group caches its registry, later loads replay it unchanged; the callback sees every cached entry in order |
| PluginLoader.Loader.ListPlugins | src/ia_sarah/core/plugin_loader.py:36-39 | exactly the names cached for the group |
| PluginLoader.Loader.ReloadEntrypoints | src/ia_sarah/core/plugin_loader.py:71-75 | rebuilds that group's cache and leaves every other group untouched |
| PluginLoader.DummyScenario | tests/test_plugin_loader.py:14-21 | one enabled entry point `dummy` reaches the callback with its object |
| Exercises.Line | src/ia_sarah/core/adapters/services/exporters.py:38-44 | the PDF line of an exercise; its contract is stated by LineDeterminedByFields, LineIgnoresOtherKeys, LineShape and BuildLine |
| Exercises.LineDeterminedByFields | src/ia_sarah/core/adapters/services/exporters.py:38-44 | the line depends only on nome, series, reps, peso, descanso and obs |
| Exercises.LineIgnoresOtherKeys | src/ia_sarah/core/adapters/services/exporters.py:38-44 | setting any other key leaves the line unchanged |
| Exercises.LineShape | src/pdf_utils.py:35-41 | the line starts with `nome - SxR` and is exactly that when peso, descanso and obs are empty or missing |
| Exercises.LineOfEmpty | src/ia_sarah/core/adapters/services/exporters.py:38 | missing keys print as empty text |
| Exercises.LineOfTestExercise | tests/test_pdf_utils.py:21-26 | the line the model computes for the test's exercise is "Supino - 3x10 20kg" (the test itself only checks that the PDF is written) |
| Exercises.BuildLine | src/services/pdf_utils.py:47-53 | the line with each optional suffix appended only when non-empty, in order |
| Exercises.PdfCells | src/ia_sarah/core/adapters/services/exporters.py:36-45 | the title cell, then one line per exercise in input order |
| PdfUtils.SanitizeFilename | src/services/pdf_utils.py:15-19 | every output character is in `[a-z0-9_]`; see also SanitizeAscii, SanitizeIdempotent and SanitizeDrops |
| PdfUtils.SanitizeAscii | src/pdf_utils.py:9-11 | on ASCII input the output has the same length, lower-case alphanumerics kept and everything else `_` |
| PdfUtils.SanitizeIdempotent | src/services/pdf_utils.py:19 | sanitizing a sanitized name changes nothing |
| PdfUtils.SanitizeAppend | src/pdf_utils.py:7-11 | the name of a concatenation is the concatenation of the names |
| PdfUtils.SanitizeDrops | src/services/pdf_utils.py:17-18 | a character whose decomposition has no ASCII part is dropped |
| PdfUtils.NfkdOfAscii | src/services/pdf_utils.py:17 | normalisation leaves ASCII text unchanged |
| PdfUtils.EncodeOfAscii | src/services/pdf_utils.py:18 | the ASCII encode-ignore keeps ASCII text unchanged |
| PdfUtils.SanitizeExample | tests/test_pdf_utils.py:9-11 | the accented name with spaces and `/` becomes "joao_da_silva_1_2" |
| Exporters.Registered | src/ia_sarah/core/adapters/services/exporters.py:105-111 | `_REGISTRY` after the plugin registrations; its contract is stated by RegisteredKeepsFormats and RegisteredLookup |
| Exporters.RegisteredKeepsFormats | src/ia_sarah/core/adapters/services/exporters.py:105-111 | plugin registrations never remove a format |
| Exporters.RegisteredLookup | src/ia_sarah/core/adapters/services/exporters.py:93-95 | a format is registered exactly when it was before or a plugin names it; a plugin's class wins |
| Exporters.ExporterLookup | src/ia_sarah/core/adapters/services/exporters.py:105-111 | after import, a format is pdf, csv, xlsx or an enabled, loading plugin; the last such plugin overrides a built-in |
| Exporters.Header | src/ia_sarah/core/adapters/services/exporters.py:58-63 | the DictWriter fieldnames: the first exercise's keys, none for an empty list; see CsvRows |
| Exporters.Fits | src/ia_sarah/core/adapters/services/exporters.py:64-66 | `writerow` accepts a dict exactly when every key is a fieldname; see WriteRows and FitsOwnKeys |
| Exporters.Project | src/ia_sarah/core/adapters/services/exporters.py:82 | one cell per header key: the exercise's value or "" |
| Exporters.Rows | src/ia_sarah/core/adapters/services/exporters.py:81-82 | one row per exercise, in input order |
| Exporters.ProjectOwnKeys | src/ia_sarah/core/adapters/services/exporters.py:80-82 | an exercise under its own keys lists its values in key order |
| Exporters.FitsOwnKeys | src/ia_sarah/core/adapters/services/exporters.py:60-66 | an exercise always fits a header made of its own keys |
| Exporters.WriteRows | src/ia_sarah/core/adapters/services/exporters.py:65-66 | every row written when every exercise fits the header; else ValueError at the first misfit, after the rows before it |
| Exporters.CsvRows | src/ia_sarah/core/adapters/services/exporters.py:56-69 | the first exercise's keys (none for an empty list) as header, then one row per exercise, or ValueError at the first exercise with a key outside the header |
| Exporters.XlsxSheet | src/ia_sarah/core/adapters/services/exporters.py:75-87 | sheet titled as given; no rows for an empty list, else the first exercise's keys and one row per exercise |
| Exporters.ExporterRegistry.Register | src/ia_sarah/core/adapters/services/exporters.py:93-95 | maps the format to the class, replacing any earlier entry, and changes nothing else |
| Exporters.ExporterRegistry.RegisterPlugins | src/ia_sarah/core/adapters/services/exporters.py:111 | one registration per cached plugin, in order |
| Exporters.ExporterRegistry.GetExporter | src/ia_sarah/core/adapters/services/exporters.py:98-102 | KeyError exactly when the format is not registered; otherwise the registered class |
| Exporters.ImportModule | src/ia_sarah/core/adapters/services/exporters.py:105-111 | the three built-ins, then the cached plugins of `ia_sarah.exporters` |
| Exporters.ExportScenario | tests/test_exporters.py:24-31 | "txt" raises KeyError, "csv" is the CSV exporter, and the test exercise writes its header and row |
| Exporters.ExerciseRow | tests/test_exporters.py:9 | the test exercise's header and row |

## Left out

- GUI, API server, CLI, controller facades, telemetry and background threads: not part of this model.
- Writing files: FPDF, openpyxl and `csv.DictWriter` output bytes, fonts, page layout and CSV quoting. Only the cells and rows handed to them are modelled.
- OSError on file output or unlink (logged and re-raised), and logging in general.
- SQLite I/O, connections and transactions. The only errors modelled are OperationalError for a missing table or column, SQLITE_FULL, and the OverflowError of binding an integer outside 64 bits. Locking, disk I/O and corruption errors are not.
- The order of students with equal names: SQLite leaves it open. The model picks ascending id, one of the allowed orders.
- `datetime.now()` is the `today` parameter of `AdicionarAluno`.
- `os.getenv` is the `env` parameter. `importlib.metadata.entry_points` is the `discovered` parameter: a sequence of names, each with the result of `load()`.
- `_import_local_plugins` (a filesystem glob plus imports) is not modelled.
- A plugin callback's effects are modelled only by whether it raises, except for the exporter registration, which is modelled in full.
- `gerar_pdf` (free text into a PDF) is not modelled: it only calls FPDF.
- Unicode NFKD is a per-character decomposition parameter that fixes ASCII. Canonical reordering of combining marks is not modelled, and does not change the ASCII part.
- JSON numbers are integers; floats are not modelled. The text format is an abstract codec. UnicodeDecodeError on read is not modelled.
- Exercise values are strings. The formatting of non-string values (numbers, a falsy 0) is not modelled.
- Exporters.ExporterRegistry.GetExporter: returns the registered class rather than a fresh instance, because exporter instances hold no state.
- openpyxl's rules for sheet titles (length, forbidden characters) are not modelled.
- Cascade on delete and the foreign-key check are not modelled, because the code never enables them on the connections that delete or insert.
- Text parameters that Python cannot encode as UTF-8 (lone surrogates) raise before binding; strings here are sequences of characters, so this is not modelled.
