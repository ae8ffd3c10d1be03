# Staff dashboard backend — a Dafny model

A model of the request handlers of the COMPLEXO RJ staff dashboard backend,
an Express service over one SQLite file. Each handler is a pure function from
the tables and the request to an `Answer(status, state, data)`. The tables
are finite maps:

- the five staff tiers are interns (`estagiarios`), support (`suportes`),
  moderators (`moderadores`), admins (`admins`) and supervisors
  (`supervisores`). Each table is a map from id to row, plus the
  highest id handed out so far;
- the city registrations (`cadastros`) are keyed by an id that the
  caller chooses;
- the goals table (`metas`) is keyed by `(cargo, metrica)` and holds the two
  thresholds `promocao` and `premiacao`.

JavaScript values are one datatype, `Js.Value`, with `Falsy`, `||`,
property access and `Object.entries` written out. `Sql.Bindable` says which
values the model lets the SQLite driver bind: numbers, strings, null and
undefined. A handler that binds a boolean or an object answers 500 and
changes nothing. The driver spreads an array argument into positional
parameters; the model treats every array value as unbindable instead, as
"## Left out" records.

Layout, one module per file:

| module | what it holds |
|---|---|
| `Js`, `Sql`, `Http` | JavaScript values, driver binding, status codes and the answer shape |
| `Listing` | `SELECT *` as a listing of a map; a list of insert-or-replace writes collected into a map |
| `Staff` | the handlers every tier route file repeats, written once over a tier descriptor |
| `Estagiarios` … `Supervisores` | the five route files as instances of `Staff`, with their own constants |
| `Cadastros` | routes/cadastros.js |
| `Metas` | routes/metas.js, including the regrouping into `cargo → metrica → goal` |
| `Exchange` | routes/export.js: the export document, the import transaction, and export-then-import |
| `Database` | the column migrations, `seedMetas` and `seedMetasSPV` |
| `Store`, `Api` | the whole database, and one request through the token middleware to its route |

Three facts about the code worth stating up front:

- The import is mounted at `POST /api/export/import`, because server.js
  mounts the export router at `/api/export`.
- `seedMetas` already seeds all five cargos, SPV included. `seedMetasSPV`
  therefore finds SPV rows already there after a first boot on an empty
  table (`Database.StartupOnEmpty`).
- Export followed by import is not the identity:
  - every staff row gets `discord_id = ''` and a new id;
  - a falsy support `premio` becomes 'NÃO';
  - a null or empty goal threshold becomes 0.

  `Exchange.ExportThenImport` states exactly what comes back.

## Model

| member | source | states |
|---|---|---|
| Listing.List | routes/estagiarios.js:9 | `SELECT *` hands back every row of the table exactly once, as many entries as rows |
| Listing.CollectListing | routes/export.js:59-61 | writing the entries of a listing one after another, each by its key, rebuilds exactly the listed map |
| Listing.CollectLast | routes/export.js:59-61 | among writes with the same key, the last one is what the map keeps |
| Listing.CollectValue | routes/export.js:59-61 | every value the collected map holds was written by some entry under that key |
| Staff.All | routes/estagiarios.js:7-15 | GET / lists every row of the tier with its id, each exactly once |
| Staff.Fetch | routes/estagiarios.js:18-29 | GET /:id answers 200 with the row exactly when the id is present and 404 exactly when it is absent; nothing changes |
| Staff.Create | routes/estagiarios.js:32-61 | POST answers 400 exactly when `nome` is falsy and 500 exactly when a parameter cannot be bound; both leave the table alone. Otherwise it answers 201 with a fresh id. The new row holds exactly the tier's columns: `nome` as given and every other column `body[c]`, or its default when that is falsy. All other rows are kept |
| Staff.Patch | routes/estagiarios.js:64-93 | PATCH answers 404 exactly for an absent id, 400 exactly when no body key is on the allow-list, and 500 exactly when a kept value cannot be bound; each leaves the table unchanged. Every other request answers 200, and then the allow-listed body keys are written verbatim with no defaults. Every other column and every other row is kept, and the updated row is returned |
| Staff.KeptFilters | routes/estagiarios.js:74-79 | the allow-list filter leaves nothing exactly when no body key is allow-listed (the 400 case); filtering is idempotent and distributes over merging two bodies |
| Staff.Delete | routes/estagiarios.js:96-112 | DELETE answers 404 exactly for an absent id, otherwise removes exactly that row and keeps every other |
| Staff.HandlersKeepValid | routes/estagiarios.js:32-112 | create, patch and delete keep a table well formed: ids positive and at most the largest id handed out, and each row holds exactly the tier's columns with storable values |
| Staff.CreateThenFetch | routes/estagiarios.js:18-61 | a created row is found under the returned id, holding the posted values and defaults |
| Staff.DeleteThenFetch | routes/estagiarios.js:18-112 | after a delete, GET /:id of that id answers 404 |
| Staff.PatchIdempotent | routes/estagiarios.js:64-93 | repeating a successful PATCH with the same body succeeds and changes nothing more |
| Staff.PatchIgnoresUnlisted | routes/estagiarios.js:74-75 | body keys off the allow-list make no difference to the answer or the table |
| Staff.ImportColumns | routes/export.js:67-72 | the import's column list is the POST column list without `discord_id` |
| Estagiarios.ColumnsAre | routes/estagiarios.js:74 | the PATCH allow-list equals the POST column list |
| Estagiarios.ImportColumnsAre | routes/export.js:68 | the intern import writes exactly `nome, cargo, situacao` and the six counters |
| Estagiarios.CreateColumns | routes/estagiarios.js:40-54 | the inserted row has exactly the allow-listed columns and no `premio` |
| Estagiarios.CreateDefaults | routes/estagiarios.js:44-47 | the new row holds `nome` as given; a falsy or missing value takes its default: `cargo` 'EST', `situacao` '✳️MANTÉM', `discord_id` '' |
| Estagiarios.CreateCounters | routes/estagiarios.js:48-53 | every counter of the new row is `body[c]`, or 0 when that is falsy |
| Estagiarios.PatchAllowList | routes/estagiarios.js:74-85 | 400 exactly when no body key is on this file's allow-list; on 200 each listed key is written as given and every other column is kept |
| Estagiarios.PatchPremioOnly | routes/estagiarios.js:74-79 | interns have no `premio`: a body holding only `premio` gets 400 (404 for an absent id) and changes nothing |
| Suportes.ColumnsAre | routes/suportes.js:78 | the PATCH allow-list equals the POST column list, `premio` included |
| Suportes.ImportColumnsAre | routes/export.js:80 | the support import writes `nome, cargo, situacao, premio` and the nine counters |
| Suportes.CreateColumns | routes/suportes.js:40-58 | the inserted row has exactly the allow-listed columns |
| Suportes.CreateDefaults | routes/suportes.js:44-48 | the new row holds `nome` as given; a falsy or missing value takes its default: `cargo` 'SUP', `situacao` '✳️MANTÉM', `discord_id` '', `premio` 'NÃO' |
| Suportes.CreateCounters | routes/suportes.js:49-57 | every counter of the new row is `body[c]`, or 0 when that is falsy |
| Suportes.PatchAllowList | routes/suportes.js:78-89 | 400 exactly when no body key is on this file's allow-list; on 200 each listed key is written as given and every other column is kept |
| Moderadores.ColumnsAre | routes/moderadores.js:80 | the PATCH allow-list equals the POST column list |
| Moderadores.ImportColumnsAre | routes/export.js:92 | the moderator import writes `nome, cargo, situacao, premio` and the eleven counters `horas` through `ticketSS` |
| Moderadores.CreateColumns | routes/moderadores.js:40-60 | the inserted row has exactly the allow-listed columns |
| Moderadores.CreateDefaults | routes/moderadores.js:44-48 | the new row holds `nome` as given; a falsy or missing value takes its default: `cargo` 'MOD', `situacao` '✳️MANTÉM', `discord_id` '', `premio` 'NÃO' |
| Moderadores.CreateCounters | routes/moderadores.js:49-59 | every counter of the new row is `body[c]`, or 0 when that is falsy |
| Moderadores.PatchAllowList | routes/moderadores.js:80-91 | 400 exactly when no body key is on this file's allow-list; on 200 each listed key is written as given and every other column is kept |
| Admins.ColumnsAre | routes/admins.js:81 | the PATCH allow-list equals the POST column list |
| Admins.ImportColumnsAre | routes/export.js:104 | the admin import writes `nome, cargo, situacao, premio` and the twelve counters, the moderators' eleven plus `devolucoes` |
| Admins.CreateColumns | routes/admins.js:40-61 | the inserted row has exactly the allow-listed columns |
| Admins.CreateDefaults | routes/admins.js:44-48 | the new row holds `nome` as given; a falsy or missing value takes its default: `cargo` 'ADM', `situacao` '✳️MANTÉM', `discord_id` '', `premio` 'NÃO' |
| Admins.CreateCounters | routes/admins.js:49-60 | every counter of the new row, `devolucoes` included, is `body[c]`, or 0 when that is falsy |
| Admins.PatchAllowList | routes/admins.js:81-92 | 400 exactly when no body key is on this file's allow-list; on 200 each listed key is written as given and every other column is kept |
| Supervisores.ColumnsAre | routes/supervisores.js:81 | the PATCH allow-list equals the POST column list |
| Supervisores.ImportColumnsAre | routes/export.js:116 | the supervisor import writes `nome, cargo, situacao, premio` and the twelve counters, the moderators' eleven plus `devolucoes` |
| Supervisores.CreateColumns | routes/supervisores.js:40-61 | the inserted row has exactly the allow-listed columns |
| Supervisores.CreateDefaults | routes/supervisores.js:44-48 | the new row holds `nome` as given; a falsy or missing value takes its default: `cargo` 'SPV', `situacao` '✳️MANTÉM', `discord_id` '', `premio` 'NÃO' |
| Supervisores.CreateCounters | routes/supervisores.js:49-60 | every counter of the new row is `body[c]`, or 0 when that is falsy |
| Supervisores.PatchAllowList | routes/supervisores.js:81-92 | 400 exactly when no body key is on this file's allow-list; on 200 each listed key is written as given and every other column is kept |
| Cadastros.All | routes/cadastros.js:7-15 | GET lists every registration exactly once |
| Cadastros.Fetch | routes/cadastros.js:18-29 | GET /:id answers 200 with the registration exactly when the id is present and 404 exactly when absent |
| Cadastros.Create | routes/cadastros.js:32-52 | 400 exactly when `id`, `nome` or `cargo` is falsy or `cidade` is undefined; 409 exactly when the id's text is taken; 500 exactly when the id cannot be bound for the lookup, or it is free and a field cannot be bound for the insert; 201 exactly when the body is complete, the id binds and is free, and every field binds; any failure changes nothing. On 201 exactly one row is added under the caller's id, holding the given fields, and the id is returned |
| Cadastros.OverwriteComposes | routes/cadastros.js:66-76 | an UPDATE with no kept field leaves the row as it was; two UPDATEs in a row equal one with the merged fields, the later winning; an UPDATE naming all three fields fixes the row whatever it held |
| Cadastros.Patch | routes/cadastros.js:55-83 | 404 exactly for an absent id; 400 exactly when no body key is `nome`, `cidade` or `cargo`; 500 exactly for an unbindable kept value; every other request answers 200, and then only that registration changes, only in the kept fields |
| Cadastros.Delete | routes/cadastros.js:86-102 | 404 exactly for an absent id, otherwise exactly that registration goes |
| Cadastros.HandlersKeepValid | routes/cadastros.js:32-102 | every handler keeps every stored field a value a column can hold |
| Cadastros.CreateThenFetchAndRepeat | routes/cadastros.js:40-47 | a created registration reads back as given, and posting the same id again is a 409 that changes nothing |
| Cadastros.NumberAndTextIdCollide | routes/cadastros.js:40-45 | under the KeyText assumption about the key column, the number `n` and the string `"n"` are the same id, so creating one after the other is a 409 |
| Cadastros.EmptyCidadeAccepted | routes/cadastros.js:36-38 | an empty `cidade` passes the required-field check: 201 for a new id, 409 for a taken one, never 400 |
| Cadastros.PatchIdempotent | routes/cadastros.js:55-83 | repeating a successful PATCH with the same body changes nothing more |
| Cadastros.DeleteThenFetch | routes/cadastros.js:18-102 | after a delete, GET /:id of that id answers 404 |
| Metas.Group | routes/metas.js:12-21 | a cargo appears in the grouping exactly when some row has it, and its entry holds exactly that cargo's rows by metrica |
| Metas.GroupLossless | routes/metas.js:12-21 | flattening the grouping gives back the table: `nested[c][m]` is the row `(c, m)` and there is nothing else |
| Metas.GroupFlatten | routes/metas.js:12-21 | grouping undoes flattening for every nested shape with no empty cargo entry |
| Metas.GroupUpdate | routes/metas.js:14-20 | writing one row changes the grouping only in that row's cargo, whose entry gains or updates that metrica |
| Metas.GroupedIsGroup | routes/metas.js:13-21 | running the grouping step over the rows in order, a later row overriding an earlier one with the same key, gives the grouping of the map the rows spell out |
| Metas.GroupRows | routes/metas.js:12-21 | the `forEach` loop that builds the nested object returns the grouping of the rows it is given |
| Metas.List | routes/metas.js:7-28 | GET /api/metas answers 200 with the grouping of the whole table; it flattens back to the table and has no empty cargo |
| Metas.ByCargo | routes/metas.js:31-53 | 404 exactly when no row has that cargo; otherwise 200 with exactly that cargo's rows by metrica |
| Metas.ByCargoIsGroupEntry | routes/metas.js:31-53 | GET by cargo succeeds exactly when the cargo is in the full grouping, and answers that cargo's entry |
| Metas.Post | routes/metas.js:56-77 | 400 exactly when `cargo` or `metrica` is falsy; 500 exactly when a parameter cannot be bound. Either failure leaves the table alone. On 201 the pair holds `promocao` and `premiacao`, each 0 when falsy and every other row is kept |
| Metas.Patch | routes/metas.js:80-114 | 404 exactly for an absent pair; 400 exactly when neither threshold is defined; 500 exactly when a given one cannot be bound; every other request answers 200, and then only the given thresholds of that one pair are overwritten, verbatim; the other threshold and every other row are kept |
| Metas.GoalOf | routes/metas.js:135 | a metrica's value reads as `valores.promocao` and `valores.premiacao`, each 0 when falsy, and fails exactly when it is null or undefined or a threshold cannot be bound |
| Metas.Upserts | routes/metas.js:132-138 | the nested loop writes exactly one row per `(cargo, metrica)` entry of the body, and fails exactly when an entry cannot be read |
| Metas.Put | routes/metas.js:117-146 | 400 exactly for a falsy or non-object body; 500 exactly when the upsert loop throws, with nothing written; every other body answers 200, and then every requested pair is upserted and every row the body does not name is kept |
| Metas.Delete | routes/metas.js:149-165 | 404 exactly for an absent pair, otherwise exactly that row goes |
| Metas.HandlersKeepValid | routes/metas.js:56-165 | every handler keeps every threshold a value a column can hold |
| Metas.PostOne | routes/metas.js:58-70 | a POST of one nonempty pair answers 201 and writes exactly that pair with falsy thresholds as 0 |
| Metas.UpsertsOne | routes/metas.js:132-137 | a bulk document naming one pair asks for exactly that one row |
| Metas.PutOne | routes/metas.js:117-146 | the bulk update of one pair answers 200 and writes exactly that pair |
| Metas.PutOneIsPost | routes/metas.js:56-146 | the bulk update of one pair leaves the table as a POST of that pair does |
| Metas.PutIdempotent | routes/metas.js:117-146 | repeating a bulk update gives the same answer and the same table |
| Metas.PatchIdempotent | routes/metas.js:80-114 | repeating a partial update gives the same answer and the same table |
| Metas.PostThenDelete | routes/metas.js:56-165 | deleting a pair that a POST just created restores the table |
| Metas.DeleteThenByCargo | routes/metas.js:31-165 | after a delete, GET by that cargo no longer lists the metrica |
| Metas.GoalsDoc | routes/metas.js:17-23 | the JSON sent for a grouping has one property per cargo, each an object of `{promocao, premiacao}` per metrica |
| Metas.NormalizedFixes | routes/metas.js:135 | writing every goal back with the zero default a second time changes nothing more, and it changes nothing at all exactly when every threshold is truthy or already 0 |
| Metas.GoalOfDoc | routes/metas.js:135 | a stored goal's JSON reads back through the upsert as the goal with falsy thresholds as 0 |
| Metas.DocReadable | routes/metas.js:133-135 | the JSON of a grouping of storable goals can be read by the bulk upsert without throwing |
| Metas.ListingReadable | routes/metas.js:7-23 | the GET document of a well-formed table can be read by the bulk upsert without throwing |
| Metas.RequestedListing | routes/metas.js:132-137 | the GET document read by the bulk upsert asks for the grouping of the table with falsy thresholds as 0 |
| Metas.UpsertsOfListing | routes/metas.js:132-137 | read by the bulk upsert, the GET document asks for every row with falsy thresholds as 0, and nothing else |
| Metas.PutOfListing | routes/metas.js:117-146 | a PUT of the GET document answers 200 and leaves the table as it was, except that falsy thresholds read 0 |
| Exchange.CadastroOf | routes/export.js:59-61 | an element binds as a registration under the text of its `id`, with storable fields, and fails for null elements, unbindable values or a NULL id |
| Exchange.CadastroRows | routes/export.js:59-61 | the array binds exactly when every element does, and gives one row per element in order |
| Exchange.ImportCadastros | routes/export.js:54-62 | without an array the registrations are untouched. Otherwise every payload id ends up present, no id appears that was neither present nor in the payload, and ids not in the payload keep their rows. It fails exactly when an element does not bind or a write is refused |
| Exchange.ImportCadastrosLastWins | routes/export.js:59-61 | the last element with a given id is what the import leaves under that id |
| Exchange.ImportCadastrosKeepsValid | routes/export.js:54-62 | the import keeps every registration field storable |
| Exchange.Refill | routes/export.js:66-73 | after `DELETE FROM` and one INSERT per row, the table holds exactly those rows, in order, under consecutive ids above the old highest id |
| Exchange.StaffRows | routes/export.js:71-73 | the tier array binds exactly when every element does, one row per element |
| Exchange.ImportedRow | routes/export.js:67-72 | the row one import INSERT writes is a well-formed row of the tier |
| Exchange.ImportTier | routes/export.js:65-74 | without an array the tier table is untouched. Otherwise it holds exactly the imported rows under fresh ids. It fails exactly when an element does not bind or a write is refused |
| Exchange.ImportedRowValues | routes/export.js:65-122 | an imported row never takes `discord_id` or `id` from the payload. A falsy `premio` becomes 'NÃO' only in the support block and passes through elsewhere. Every other listed column is the element's value |
| Exchange.ImportGoals | routes/export.js:125-137 | without a non-null object the goals are untouched. Otherwise every `(cargo, metrica)` is upserted with falsy thresholds as 0 and no goal row is deleted. It fails exactly when an entry cannot be read or a write is refused |
| Exchange.GoalsGuard | routes/export.js:125 | `metas && typeof metas === 'object'` admits exactly the arrays and the non-null objects |
| Exchange.Import | routes/export.js:48-147 | if any block fails, the answer is 500 and every table is as before. Otherwise the answer is 200 with every block applied to its table |
| Exchange.ImportEmpty | routes/export.js:50-138 | a payload with none of the seven fields changes nothing and answers 200 |
| Exchange.ImportKeepsValid | routes/export.js:52-138 | the import keeps every table well formed |
| Exchange.StaffDoc | routes/export.js:9-13 | an exported staff row carries its id and every column value |
| Exchange.CadastroDoc | routes/export.js:14 | an exported registration carries its id and its three fields |
| Exchange.Export | routes/export.js:7-45 | GET /api/export answers every row of every table exactly once, with the goals grouped as GET /api/metas sends them; the database is unchanged |
| Exchange.DocumentFields | routes/export.js:29-38 | the export document's fields are the ones the import reads back |
| Exchange.CadastrosRoundTrip | routes/export.js:54-62 | importing exported registrations restores every one of them and keeps the target's other registrations |
| Exchange.Reimported | routes/export.js:65-122 | an exported row reads back with the same columns, except that `discord_id` becomes '' and, in the support block, a falsy `premio` becomes 'NÃO' |
| Exchange.ImportedRowOfDoc | routes/export.js:65-122 | an exported staff row binds, and the import writes it back as `Reimported` |
| Exchange.TierRoundTrip | routes/export.js:65-122 | importing an exported tier table refills the target with the exported rows in export order under fresh ids |
| Exchange.GoalsRoundTrip | routes/export.js:17-27 | importing the exported goals upserts every goal with falsy thresholds as 0 and keeps the target's other goals |
| Exchange.NoIdColumn | routes/export.js:68 | no tier lists a column named `id`, so an exported id never lands in a column |
| Exchange.ExportThenImport | routes/export.js:7-147 | with every write accepted, importing an export answers 200 and leaves exactly the restored database: tiers refilled, registrations restored, goals restored with falsy thresholds as 0 |
| Exchange.RestoreIntoSource | routes/export.js:54-137 | restoring an export into its own database keeps every registration and every goal up to falsy thresholds reading 0 |
| Database.AddColumn | database/database.js:26-35 | one guarded ALTER: the column is present afterwards if the table exists; no column disappears and no other table changes |
| Database.AddToEach | database/database.js:24-36 | every existing table of the list gets the column even when another table is missing; nothing else is added |
| Database.MigrateAdds | database/database.js:23-48 | after the migrations every existing tier table has `discord_id`, `suportes` has `premio`, and no table appears |
| Database.MigrateOnlyAdds | database/database.js:23-48 | the migrations add only `discord_id` to tier tables and `premio` to `suportes`, never remove a column, and leave other tables alone |
| Database.AddToEachPresent | database/database.js:24-36 | the `discord_id` loop changes nothing when every existing table already has the column |
| Database.MigrateIdempotent | database/database.js:23-48 | running the migrations a second time changes nothing |
| Database.DefaultsGroup | database/database.js:56-111 | the seeded rows, grouped, are exactly the default matrix of five cargos |
| Database.SeedMetasKeeps | database/database.js:53-54 | `seedMetas` leaves a table with any row alone |
| Database.SpvRowsAre | database/database.js:120-133 | the supervisor seed rows are all SPV rows and are exactly the supervisor defaults |
| Database.SeedMetasSpvEffect | database/database.js:116-135 | `seedMetasSPV` changes nothing exactly when some row has cargo 'SPV'. Otherwise it keeps every row, adds no row of another cargo, and the SPV rows become exactly the supervisor defaults |
| Database.StartupOnEmpty | server.js:58-60 | on an empty table start-up writes the default matrix, and the SPV step then finds its rows |
| Database.StartupSeeds | server.js:58-60 | after start-up the goals table has rows, some with cargo 'SPV' |
| Database.StartupIdempotent | server.js:58-60 | running `seedMetas` and then `seedMetasSPV` a second time changes nothing |
| Database.StartupKeepsRows | server.js:58-60 | start-up never changes or removes a goal that was there |
| Api.TierRoute | server.js:36-40 | a staff request reaches its tier's handler: the answer is the handler's status and the tier's table becomes the handler's table. No other table changes, reads change nothing, listing answers 200, and GET /:id succeeds exactly for a present id |
| Api.CadastroRoute | server.js:35 | a registration request reaches its handler in routes/cadastros.js: the answer is the handler's status and the registrations become the handler's store. No other table changes, reads change nothing, and GET /:id succeeds exactly for a present id |
| Api.GoalRoute | server.js:41 | a goals request reaches its handler in routes/metas.js: the answer is the handler's status and the goals become the handler's goals. No other table changes, reads change nothing, and GET by cargo succeeds exactly when the cargo has a row |
| Api.ImportRoute | routes/export.js:48-147 | the import route's answer is the import transaction's. It may write every table and answers 200 or 500; a 500 leaves every table as it was, and it sends back no rows, only a message |
| Api.Route | server.js:34-42 | each request reaches the route file its mount names: staff, registrations, goals, or the export router's export and import. It writes no table it does not name, and a read changes nothing |
| Api.Handle | middleware/auth.js:5-20 | a guarded route answers 401 without a token and 403 for a rejected one, changing nothing. With an accepted token, and for every read, the request goes on to its route and the answer is the route's. No request writes a table it does not name |
| Api.AcceptedMissingName | routes/estagiarios.js:32-38 | with an accepted token, a staff POST without a truthy `nome` answers the handler's 400 and changes nothing; without a token the same request answers 401 |
| Api.ReadsAnswer | middleware/auth.js:5-20 | the answer to a read does not depend on the token, and is 200 or 404 |
| Api.HandleKeepsValid | server.js:34-42 | every request keeps the whole database well formed |

## Left out

- The SQLite engine: SQL text, type affinity, collation and the `ORDER BY` order. Listings are any order that lists each row once (`Exchange.Orders` is that order as a parameter).
- Exchange.CadastroOf: an imported registration whose `id` is missing, null or undefined (or an element that is a number or a string, whose `.id` is undefined) is modelled as a refused write that rolls the import back. The source binds NULL for it, and whether INSERT OR REPLACE accepts a NULL key depends on the `cadastros` key column in schema.sql.
- Exchange.ImportedRow: the imported row's `discord_id` is '', the default the migration's `ALTER TABLE … ADD COLUMN discord_id TEXT DEFAULT ''` gives (database/database.js:31). The default schema.sql gives the column is assumed to be the same.
- The table definitions in schema.sql are not part of this model. Constraints they may impose (NOT NULL, CHECK) are an oracle `accepts` on the import's writes. Elsewhere the engine is assumed to accept every bindable write.
- Storage failures (I/O, locking) that make a handler answer 500 are not modelled outside the import.
- Tier ids follow a highest-id-so-far counter, as AUTOINCREMENT numbers them. With plain rowids SQLite may reuse the largest id after a delete; which one the schema uses is not visible here.
- Route parameters `:id` of the tier routes are integers. A non-numeric parameter matches no row, which the model covers as an absent id.
- Registration ids are modelled as the text of the bound value (`KeyText`): an integer becomes its decimal text. A boolean or object id answers 500; an array id is modelled as unbindable too.
- Cadastros.NumberAndTextIdCollide: that 7 and "7" name one registration rests on the KeyText assumption about the `cadastros.id` column and the driver, and schema.sql, which decides it, is not part of this model. Under a TEXT key with numbers bound as REAL, 7 would be stored as "7.0" and not collide with "7". Under an INTEGER or NUMERIC key, "07" would also collide with 7. An untyped key never collides. Whether `POST /api/cadastros` answers 409 or 201 (routes/cadastros.js:40-43), and which ids `GET /api/cadastros/:id` finds, depends on it.
- Array values in bound positions are modelled as unbindable, so the handler answers 500 and nothing changes. The driver instead spreads an array argument into positional parameters. A one-element array then binds as its element: `{"nome": ["Ana"]}` stores "Ana" and the source answers 201. Other lengths shift the remaining parameters or make their count wrong. The members that bind body or payload values inherit this, one per line:
- Staff.Create: a body value that is an array answers 500 (see the array line above).
- Staff.Patch: an allow-listed body value that is an array answers 500 (see the array line above).
- Cadastros.Create: an `id`, `nome`, `cidade` or `cargo` that is an array answers 500 (see the array line above).
- Cadastros.Patch: an allow-listed body value that is an array answers 500 (see the array line above).
- Metas.Post: a `cargo`, `metrica` or truthy threshold that is an array answers 500 (see the array line above).
- Metas.Patch: a threshold that is an array answers 500 (see the array line above).
- Metas.GoalOf: a truthy threshold that is an array, such as `[3]`, makes the read fail, where `[3] || 0` binds 3 in the source; Metas.Put and Exchange.ImportGoals inherit it (see the array line above).
- Exchange.CadastroOf: a field or id that is an array makes the element fail to bind and rolls the import back (see the array line above).
- Exchange.ImportTier: through `RowBinds`, an element whose listed column holds an array fails to bind and rolls the import back (see the array line above).
- Staff.Fetch, Staff.Patch: the row they return holds the tier's columns but not `id`. The `SELECT *` row the source sends also carries `id`, which is the `:id` of the request.
- Metas.Upserts: `Js.Entries` splits a string value into one entry per Unicode code point, but JavaScript's `Object.entries` gives one entry per UTF-16 code unit. A character outside the Basic Multilingual Plane, such as `{"EST": "😀"}`, requests one row (`EST`, "0") here, while the source upserts two, "0" and "1". Metas.Put and Exchange.ImportGoals inherit this.
- JavaScript numbers are integers. Floating-point thresholds, NaN and -0 are not modelled.
- Metas.Group, Metas.ByCargo, Metas.List and Exchange.Export: a stored cargo or metrica that names an inherited JavaScript property is not modelled. The handlers index a plain object with stored data (routes/metas.js:14-20, 41-45; routes/export.js:19-26). A cargo such as `constructor` finds a truthy inherited value, so its metrics are written onto a prototype and the cargo is missing from the answer. A cargo or metrica `__proto__` writes onto Object.prototype. The model says every stored cargo appears; that holds only for names that are not inherited properties.
- Listing payloads are not part of `Api.Route`'s answer. `Staff.All`, `Cadastros.All`, `Metas.List` and `Exchange.Export` state them.
- JWT signing and verification, bcrypt, the login and register routes, and the users table. The token check is the three-valued `Api.Token`.
- Express wiring, CORS, static files, the SPA fallback, environment configuration, logging and `listen`.
- The `exportedAt` timestamp is a parameter of `Exchange.Export`.
- Concurrency between requests. Each request is one atomic step.
- Database.DefaultsGroup: states the seeded rows as the exact default matrix, not the count of 34 rows; the count follows from the matrix and is not stated separately.
- `seedMetasSPV` spells out the same seven goals as the SPV part of `seedMetas`. The model defines them once, as `Database.Spv`.
