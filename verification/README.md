# Himitsu: a verified model

Himitsu stores the secrets of an organization in projects and environments, exports and imports them as dotenv,
shell and JSON documents, seals every value under rotating data keys, checks environments against each other, and
feeds Kubernetes Secrets through an operator that polls a conditional endpoint. This project models those parts in
Dafny and proves what they are for. `dafny verify dfyconfig.toml` checks everything.

The modules follow the components.

- **Codecs.** `Strings` (UTF-16 text and the JavaScript string functions), `Decimal` and `JsonString` (section 25.5.2
  of ECMA-262 for printing, section 7 of RFC 8259 for reading) carry `Dotenv`, `LineExport`, `ShellExport` (a reader
  after sections 2.2.1 and 2.2.2 of the POSIX.1-2017 Shell Command Language), `NestedExport` (the mutable tree with its
  cursor, on the heap), `JsonImport` and `NestedRoundTrip`. What any text or document means, exported or not, is said
  without the parsers: `DotenvGrammar` is a grammar of which every text is a sentence, `JsonLeaves` lists where the
  paths of a document end and what becomes of each end.
- **The store.** `Database` holds the tables, the row trigger that keeps `config_version`, and the invariants;
  `Operations` gives each request as one transaction; `Store` is the same requests as methods that change tables row by
  row, proved equal to `Operations`. `Evolution`, `Preservation`, `Hierarchy`, `Batches` and `Transactions` carry the
  invariants over every run; `FrozenProjects`, `WriteEffects`, `BatchEffects` and `PromotionSummary` say what requests
  achieve, `RequestConditions` and `BatchConditions` exactly when they succeed, `InputLaws` which keys, slugs and notes
  they take, `Utf8` (section 3 of RFC 3629) what storing a text does to it, and `RuntimeConfig` what the runtime
  endpoint serves after each of them.
- **Consistency.** `Consistency` and `ConsistencyMatrix` are the analysis and the matrix with their loops,
  `ConsistencyProperties` relates them, `ConsistencyLaws` says exactly which findings a project gets, and
  `ConsistencyCache` is the report cache over the same tables.
- **Keys.** `AuthenticatedData` has the JSON arrays that bind ciphertexts, `AuthenticatedBytes` their UTF-8,
  `ActivationQueue` the promise-chain lock as a machine over interleavings, `KeyRing` and `KeyStore` the versioned keys,
  `Envelope` the service with its cache of heap buffers. The cipher is ideal: a box opens only with the key, nonce and authenticated data it was sealed with.
- **Operator.** `RuntimeTag` is the entity tag (section 13.1.2 of RFC 9110), `TargetSecret` and `TargetWriter` the
  Secret that is written, `Operator` the reconcile protocol as a machine over single calls, `OperatorSafety`,
  `OperatorTheorems`, `OperatorEdits` and `OperatorOwnership` its proofs, `OperatorServer` the link to the store,
  `OperatorDotenv` the Dotenv template.
- **Limiters.** `FixedWindow` is the meaning of a limit and of forgetting expired windows, `RateLimiter` and
  `LoginLimiter` the two classes.

## Where the code departs from what it says

- The comment on `renderDotenv` promises single quotes and a round trip through the importer's dotenv parser. The code
  uses `strconv.Quote` and checks no key. `OperatorDotenv.RenderRoundTrip` gives the exact condition: distinct dotenv
  keys, and values of code points that survive. The store takes other keys, and the error for data keys tells users to choose
  Dotenv for keys of that shape; by `OperatorDotenv.HashKeyVanishes` a secret whose key starts with a hash sign is lost
  without an issue, and `OperatorDotenv.RenderParses` says for which keys anything comes back.
- The operator's README says that a full fetch is forced whenever the spec changed since the status was written. A
  failed reconcile also records the generation, so a failure right after an edit lets the next poll be conditional on
  the version of the old environment: `OperatorTheorems.FailureAfterEditHidesIt`. Told from the spec, this can happen to
  exactly the edits that change source, format or document key: `OperatorEdits.EditsThatKeepTheMeaning` and
  `OperatorEdits.AnyOtherEditCanHide`. Told from the run, `OperatorTheorems.CarefulRunsAreSafe` is safety without such
  failures.
- The operator's README says foreign keys are never touched by a Merge. `TargetSecret.ForeignIsKeptIff` is the exact
  condition, and it fails for two families: a foreign key with the name of a secret is overwritten and later deleted
  (`TargetSecret.CollidingKeyIsLost`), and template annotations are merged before the list of managed keys is read, so a
  template can list foreign keys. `TargetSecret.MergeIsExactIff` is the same for the keys that are gone upstream.
- `InMemoryDataKeyStore` retires the active key before the new one exists: `ActivationQueue.FailedRotationLosesTheActiveKey`
  and, for every run, `ActivationQueue.RingAfterEveryRun`.
- Export and import of dotenv are not inverse for control characters and lone surrogates: `LineExport.DotenvRoundTrip`.

## Model

| member | source | states |
|---|---|---|
| JsonString.ReadOfQuote | packages/secrets/src/index.ts:204 | a reader after RFC 8259 gets back every string `JSON.stringify` printed and stops right behind it |
| JsonString.QuotePrefixFree | packages/crypto/src/index.ts:439-449 | equal documents that start with printed strings agree on the strings and on the rest |
| Dotenv.ParseQuoted | packages/imports/src/index.ts:84-120 | the cursor loop over lines finds value, last line, trailing text and termination as the scan defines them, over any number of lines |
| Dotenv.UnquotedValue | packages/imports/src/index.ts:122-131 | an unquoted value ends at the first hash sign that has no backslash before it |
| Dotenv.ParseLine | packages/imports/src/index.ts:41-79 | one assignment line: skipped, an issue with its code and key, or an entry, and where parsing goes on |
| Dotenv.ParseDotenv | packages/imports/src/index.ts:35-82 | the loop over lines with its seen set computes exactly the parse of the whole document |
| Dotenv.ParseFromWellFormed | packages/imports/src/index.ts:35-82 | in every document parsed keys are valid, distinct and in increasing line order |
| DotenvGrammar.ParsedAsMeant | packages/imports/src/index.ts:35-131 | every document of the grammar is parsed as it means: blank lines and comments nothing, unquoted values up to the first unescaped hash without the white space around them, quoted ones over any number of lines joined by line feeds with the escapes of their quote, the word export dropped, the first line of a key its entry and each later one a duplicate, each issue code for exactly its kind of line; with or without a byte order mark, for both line ends |
| DotenvGrammar.EveryTextIsADocument | packages/imports/src/index.ts:35-131 | every text is a document of that grammar, so the meaning of every input is stated |
| DotenvGrammar.PlainAssignment | packages/imports/src/index.ts:35-82 | `key=value` with a value that is tight and has no hash sign, line feed or leading quote is that one entry and no issue |
| LineExport.SerializeRows | packages/secrets/src/index.ts:190-204 | the line export succeeds exactly when every key is an identifier, prints one line each in order, and otherwise names an offending key |
| LineExport.ParseRows | packages/imports/src/index.ts:35-120 | a document of quoted assignments parses without issues to exactly those assignments, in order and numbered |
| LineExport.DotenvExportParses | packages/secrets/src/index.ts:203-206 | every dotenv export parses back without issues to the same keys, whatever the values hold |
| LineExport.DotenvRoundTrip | packages/secrets/src/index.ts:203-206 | parsing the export gives back exactly the entries if and only if no value has a C0 control but tab, line feed and carriage return, nor a lone surrogate |
| ShellExport.ShellRoundTrip | packages/secrets/src/index.ts:207-210 | a POSIX reader recovers exactly the list of keys and values from the shell export if and only if no value contains NUL |
| NestedExport.Descend | packages/secrets/src/index.ts:231-240 | one inner segment: the cursor follows or creates a child, or finds a string in its way; the rest of the tree is untouched |
| NestedExport.Walk | packages/secrets/src/index.ts:222-240 | the cursor reaches the parent of the last segment exactly when no proper prefix of the path holds a string |
| NestedExport.Insert | packages/secrets/src/index.ts:222-241 | a value is stored exactly when its path is free and no prefix of it is a value; the tree then has one leaf more |
| NestedExport.BuildTree | packages/secrets/src/index.ts:212-243 | the export succeeds, in any insertion order, exactly for a valid delimiter, no empty segment and no path that is a proper prefix of another; errors name a key at fault |
| NestedExport.LeavesArePrefixFree | packages/secrets/src/index.ts:224-240 | no leaf of a built tree lies below another |
| JsonImport.Flattener.Add | packages/imports/src/index.ts:185-242 | a scalar adds one entry, or an issue for a taken key or too many entries |
| JsonImport.Flattener.Walk | packages/imports/src/index.ts:185-242 | the recursive walk changes the captured arrays exactly as the functional walk of the document says |
| JsonImport.ParseJsonSecrets | packages/imports/src/index.ts:185-242 | entries and issues of a whole import: a bad delimiter, a source `JSON.parse` refuses and a root that is no object each give their one issue, in this order, anything else is walked |
| JsonLeaves.ImportedAsLeaves | packages/imports/src/index.ts:185-242 | for every document the entries and issues are those of its leaves in order: strings, numbers and booleans with their text, nulls, arrays, names that are not plain and paths that are too deep with the issue of their kind |
| JsonLeaves.EveryLeafIsAccountedFor | packages/imports/src/index.ts:185-242 | each leaf has its entry or the issue of its cause, collision and count included, and there are no others |
| JsonLeaves.NoIssueIff | packages/imports/src/index.ts:185-242 | there is no issue exactly for at most 100 leaves that are all values with different joined keys, and then one entry for each in order |
| JsonLeaves.NameIsShown | packages/imports/src/index.ts:248-250 | a path shows identifiers as they are and any other name as a bracketed JSON string |
| NestedRoundTrip.VisitCovers | packages/imports/src/index.ts:185-242 | walking any subtree lists each of its leaves once and raises no issue exactly when depth, segments and count fit |
| NestedRoundTrip.NestedRoundTrip | packages/imports/src/index.ts:185-242 | flattening the exported tree raises no issue exactly for at most 100 keys of at most 20 plain segments, and then gives back one entry for each secret with its key and value |
| Store.Tables.FireTriggers | packages/database/migrations/0013_runtime_config_version.sql:6-32 | the row trigger adds to each environment's config version the number of its secrets whose version or deletion changed |
| Store.Tables.CreateProject | packages/projects/src/index.ts:168-220 | the new project and its default environments, or an error that leaves the tables alone; slugs of deleted projects are taken |
| Store.Tables.DeleteProject | packages/projects/src/index.ts:331-365 | possible exactly for an active project; project, active environments and active secrets get the deletion and its tag, all other rows, slugs and versions stay |
| Store.Tables.RestoreProject | packages/projects/src/index.ts:367-403 | within the window exactly the rows with the tag of that deletion come back, all others stay |
| Store.Tables.CreateEnvironment | packages/environments/src/index.ts:135-188 | slugs are taken by deleted environments too |
| Store.Tables.DeleteEnvironment | packages/environments/src/index.ts:279-333 | the last environment stays, active secrets need confirmation, and exactly the active ones are deleted with the environment and its tag |
| Store.Tables.RestoreEnvironment | packages/environments/src/index.ts:335-387 | exactly the secrets with the tag of that deletion come back |
| Store.Tables.WriteVersion | packages/secrets/src/index.ts:1065-1134 | a version row and the counter of the locked row, or an error that leaves both |
| Store.Tables.CreateSecret | packages/secrets/src/index.ts:964-1033 | an own deleted row of the key is brought back with the next version, else a row at version 1 is inserted, else the key is taken; possible exactly when the key has no active row |
| Store.Tables.UpdateSecret | packages/secrets/src/index.ts:660-690 | possible exactly for an active secret, the expected version and inputs that fit; notes alone leave version and config version, a value raises both by one |
| Store.Tables.Rollback | packages/secrets/src/index.ts:611-648 | possible exactly for an active secret, an earlier target and the expected version; the old plaintext is appended as a new version and nothing else changes |
| Store.Tables.DeleteSecret | packages/secrets/src/index.ts:937-962 | possible exactly for an active secret; its row is deleted without a tag and its versions stay |
| Store.Tables.BulkSet | packages/secrets/src/index.ts:692-738 | each key is written or created in order, all in one transaction |
| Store.Tables.ImportBatch | packages/secrets/src/index.ts:740-833 | items are created, updated or skipped by strategy, with their counts |
| Store.Tables.Promote | packages/secrets/src/index.ts:862-935 | each source row is written over the target row read before the loop, or created |
| Store.Tables.Transact | packages/secrets/src/index.ts:276-1320 | each request changes the tables as its transaction says or not at all, keeps every invariant and only extends what was there |
| Transactions.Reachable | packages/environments/src/index.ts:279-387 | in every reachable state an active secret has an active environment, that an active project, each project that is active an active environment; tags equal the ancestor's deletion and exclude each other; slugs are unique, deleted rows included; one row for each environment and key; versions are exactly 1 to current |
| Transactions.ConfigVersionNamesView | packages/database/migrations/0013_runtime_config_version.sql:6-32 | equal config versions at two moments of any run mean equal runtime configurations |
| Transactions.HistoryIsAppendOnly | packages/secrets/src/index.ts:1065-1134 | a recorded plaintext is never changed or lost and numbering never goes back, through deletes, restores and resurrections |
| Transactions.AtMostOneWriterWins | packages/secrets/src/index.ts:611-690 | of all value writes and rollbacks in a run that expect the same version of a secret at most one succeeds |
| Transactions.StaleWriteFails | packages/secrets/src/index.ts:611-690 | a write that expects another version of an active secret gets exactly the version conflict, except a rollback below version 1; without an active secret it is not found |
| RequestConditions.CreateProjectIff | packages/projects/src/index.ts:168-220 | a project is created exactly for a new slug of words joined by hyphens and 1 to 20 different such slugs of default environments |
| RequestConditions.ProjectIsCreated | packages/projects/src/index.ts:168-220 | what is added is one active project of that slug with one active environment of each default slug |
| RequestConditions.DeleteProjectIff | packages/projects/src/index.ts:331-365 | a project is deleted exactly if it is active |
| RequestConditions.RestoreProjectIff | packages/projects/src/index.ts:367-403 | a project is restored exactly if it is deleted and its window is open |
| RequestConditions.CreateEnvironmentIff | packages/environments/src/index.ts:135-188 | an environment is created exactly in an active project with fewer than 50 active ones, for a new slug |
| RequestConditions.EnvironmentIsCreated | packages/environments/src/index.ts:135-188 | what is added is one active environment of that slug |
| RequestConditions.DeleteEnvironmentIff | packages/environments/src/index.ts:279-333 | an environment is deleted exactly if it is active, another active one of its project stays, and its active secrets, if any, are confirmed |
| RequestConditions.RestoreEnvironmentIff | packages/environments/src/index.ts:335-387 | an environment is restored exactly if it was deleted for itself, its window is open and its project active |
| RequestConditions.EnvironmentWindow | packages/environments/src/index.ts:308-352 | a deleted environment can be restored right up to the end of the window its deletion opened |
| InputLaws.SlugIffWords | packages/projects/src/index.ts:77-83 | slugs are lower-case words of letters and digits joined by single hyphens, at most 80 units |
| InputLaws.ConventionalIffWords | packages/secrets/src/index.ts:14 | conventional keys are upper-case words of letters and digits joined by single underscores, a letter first |
| InputLaws.KeyIsValidated | packages/secrets/src/index.ts:163-179 | a key without the white space around it is taken, or refused with the error of its length, its units or its convention |
| InputLaws.NotesAreValidated | packages/secrets/src/index.ts:246-251 | notes without the white space around them are taken, none if nothing is left, or refused for their length |
| Utf8.StoredIsDecoded | packages/secrets/src/index.ts:181-188 | a stored value reads as what its UTF-8 bytes decode to, and the limit of 64 KiB counts those bytes |
| Utf8.StoredUnits | packages/secrets/src/index.ts:349 | it has every unit of the given value but for lone surrogates, each of which is U+FFFD |
| Utf8.StoredIsGivenIff | packages/secrets/src/index.ts:417 | exactly the values without lone surrogates are stored as they are |
| Hierarchy.ProjectRoundTrip | packages/projects/src/index.ts:331-403 | deleting then restoring a project within the window is the identity on all rows but config versions, and outside it is refused |
| Hierarchy.NestedRoundTrip | packages/environments/src/index.ts:279-387 | delete environment, delete project, restore project, restore environment is the identity on all rows but config versions |
| Hierarchy.RestoreUndoesProjectDelete | packages/projects/src/index.ts:338-393 | a restoration lifts exactly the tags its deletion set |
| Hierarchy.RestoreUndoesEnvironmentDelete | packages/environments/src/index.ts:308-377 | the same for an environment, with unrelated changes of config versions in between |
| FrozenProjects.RunFreezes | packages/projects/src/index.ts:331-403 | no run of requests that does not restore a deleted project changes any of its rows |
| FrozenProjects.RestoreAfterAnything | packages/projects/src/index.ts:367-403 | whatever happens elsewhere in between, restoring brings back exactly the environments and secrets, active and deleted, as they were |
| WriteEffects.CreationOutcome | packages/secrets/src/index.ts:964-1033 | in an open environment an acceptable secret is created exactly when its key has no active row, and a deleted row of the key continues its numbering |
| WriteEffects.RollbackOutcome | packages/secrets/src/index.ts:611-648 | a rollback succeeds exactly for an active secret, the expected version and an earlier target; it appends a version equal to the target and changes nothing else of the row or its history |
| WriteEffects.UpdateOutcome | packages/secrets/src/index.ts:660-690 | an update succeeds exactly for an active secret, the expected version and inputs that fit; notes alone leave version and config version, a value raises both by one |
| WriteEffects.PutLands | packages/secrets/src/index.ts:782-813 | one batch item leaves its key active with its value and notes, under the row it had, one version later |
| BatchConditions.CreationSucceedsIff | packages/secrets/src/index.ts:964-1033 | a secret is created exactly in an open environment, under a good key that has no active row, with a value and notes that fit |
| BatchConditions.BulkSucceedsIff | packages/secrets/src/index.ts:692-738 | a bulk write succeeds exactly for 1 to 100 good and different keys, an open environment, and values and notes that fit |
| BatchConditions.ImportSucceedsIff | packages/secrets/src/index.ts:740-833 | an import succeeds exactly under the same conditions, for merge with selected keys from the source, where only the items that the strategy writes need to fit |
| BatchConditions.PromotionSucceedsIff | packages/secrets/src/index.ts:1225-1279 | a promotion succeeds exactly between two different open environments, for all secrets of the source or for at least one key, all good, different and active there; what the source holds always fits |
| BatchEffects.PreviewPredictsImport | packages/imports/src/index.ts:133-149 | overwrite creates the preview's adds and updates its updates, skip creates the adds and skips the updates, merge writes the selected keys; counts add up, items landed, other keys untouched |
| BatchEffects.BulkIsOverwrite | packages/secrets/src/index.ts:716-736 | a bulk write, which looks each key up in turn, leaves the same tables or error as an import that overwrites, which read the rows before its loop |
| BatchEffects.BulkOutcome | packages/secrets/src/index.ts:692-738 | after a bulk write every key has its value and notes under the row it had, and nothing else changed |
| BatchEffects.SkipImportIsIdempotent | packages/secrets/src/index.ts:740-833 | repeating an import that skips existing keys changes nothing |
| BatchEffects.PromotionOutcome | packages/secrets/src/index.ts:862-935 | every selected secret has its value and notes in the target, an overwritten row one version later; source and other keys are as before; a following preview shows overwrites without change |
| PromotionSummary.SummaryAddsUp | packages/secrets/src/index.ts:1281-1288 | creations and overwrites of a preview are all its items |
| PromotionSummary.FollowingPreviewIsSettled | packages/secrets/src/index.ts:1253-1290 | a preview right after a promotion selects the same secrets, all overwrites, none changed |
| PromotionSummary.TargetGrowsByCreated | packages/secrets/src/index.ts:862-935 | the target gains exactly as many active keys as the preview announced creations |
| RuntimeConfig.ServedIffLive | packages/secrets/src/index.ts:395-433 | a key is served with a value exactly if a row that is not deleted has that key and currently that value |
| RuntimeConfig.CreationIsServed | packages/secrets/src/index.ts:964-1033 | after a creation its key is served with the given value, if that has no lone surrogate, and all else as before |
| RuntimeConfig.UpdateIsServed | packages/secrets/src/index.ts:660-690 | the same after an update with a value |
| RuntimeConfig.RollbackIsServed | packages/secrets/src/index.ts:611-648 | after a rollback the plaintext recorded for the target is served, and all else as before |
| RuntimeConfig.BulkIsServed | packages/secrets/src/index.ts:692-738 | after a bulk write every key is served with its given value, and all others as before |
| RuntimeConfig.PromotionIsServed | packages/secrets/src/index.ts:862-935 | after a promotion the target serves each selected key with the value of the source, which serves it as before |
| RuntimeConfig.PreviewIffServed | packages/secrets/src/index.ts:1253-1290 | a preview announces an overwrite exactly if the target serves the key, and a change exactly if it does not serve it with the value of the source |
| RuntimeConfig.DeletedIsNotServed | packages/secrets/src/index.ts:937-962 | after a deletion the key is served no more, and all others as before |
| RuntimeConfig.DeletedEnvironmentServesNothing | packages/environments/src/index.ts:279-333 | a deleted environment serves nothing, every other what it did |
| RuntimeConfig.DeletedProjectServesNothing | packages/projects/src/index.ts:331-365 | the environments of a deleted project serve nothing, all others what they did |
| RuntimeConfig.NotModifiedIsCurrent | packages/secrets/src/index.ts:366-433 | over any run: a client that is told that nothing was modified holds exactly what a full answer would hold |
| Consistency.GroupByKey | packages/consistency/src/index.ts:157-166 | the grouping loop gives each normalized key the secrets of its case variants in order |
| Consistency.FindInGroup | packages/consistency/src/index.ts:168-182 | the missing, case and naming findings of one group |
| Consistency.FindInValues | packages/consistency/src/index.ts:183-203 | the empty and placeholder findings |
| Consistency.AnalyzeConsistency | packages/consistency/src/index.ts:152-210 | the findings of the whole analysis, each as often as it is reported |
| ConsistencyLaws.ReportedIffJustified | packages/consistency/src/index.ts:152-210 | a finding is reported exactly if the secrets justify it, kind by kind: severity, keys, environments with their multiplicity and missing environments, naming violations for exactly the keys that are no upper-case words joined by underscores |
| ConsistencyProperties.OrderDoesNotMatter | packages/consistency/src/index.ts:152-210 | rearranging the input changes no finding |
| ConsistencyMatrix.BuildMatrix | packages/consistency/src/index.ts:411-447 | one row for each normalized key with its spellings and the key it shows, one cell for each environment in order, each with its state and the id of the variant there that sorts first |
| ConsistencyProperties.MatrixAgreesWithFindings | packages/consistency/src/index.ts:411-447 | a cell is missing exactly when the key's missing finding lists its environment, and empty exactly when a case variant there has an empty value |
| ConsistencyProperties.SummaryAddsUp | packages/consistency/src/index.ts:384-406 | a report is healthy exactly when every finding is ignored, and errors and warnings are all active findings |
| ConsistencyCache.RowStaysOk | packages/consistency/src/index.ts:227-305 | a cache row stays right through every transaction, because versions are never rewritten or reused |
| ConsistencyCache.ReportCache.Compute | packages/consistency/src/index.ts:227-305 | served from the cache or not, the findings are the analysis of the current plaintexts |
| ConsistencyCache.CachedReportIsCurrent | packages/consistency/src/index.ts:449-454 | over any run, findings stored for a fingerprint are those of any later moment the same fingerprint describes |
| AuthenticatedData.SecretAadIsInjective | packages/crypto/src/index.ts:427-450 | two complete contexts share their authenticated data only if they are equal |
| AuthenticatedData.DataKeyAadIsInjective | packages/crypto/src/index.ts:41-43 | the same for organization and key version |
| AuthenticatedData.PurposesAreSeparate | packages/crypto/src/index.ts:427-450 | a value never authenticates as a wrapped key |
| AuthenticatedData.CacheKeyIsInjective | packages/crypto/src/index.ts:558 | the cache name tells organization and version apart even if organizations contain colons |
| AuthenticatedData.SecretAadReadsBack | packages/crypto/src/index.ts:427-451 | a reader of JSON lists gets back the ids and the version of a context in their order, behind the tag of a value; exactly incomplete contexts have no array |
| AuthenticatedData.DataKeyAadReadsBack | packages/crypto/src/index.ts:41-43 | the same for organization and version behind the tag of a data key |
| AuthenticatedBytes.BytesTellContexts | packages/crypto/src/index.ts:41-43 | equal authenticated bytes mean equal contexts, and no value shares its bytes with a wrapped key |
| ActivationQueue.EveryRunIsOrdered | packages/crypto/src/index.ts:147-156 | under every interleaving the settled calls are the first ones, only the next one runs, and it saw what they left |
| ActivationQueue.NoOverlap | packages/crypto/src/index.ts:147-156 | activations never overlap and run in call order |
| ActivationQueue.AbsentLockMeansIdle | packages/crypto/src/index.ts:154 | an absent lock entry means nothing waits and nothing runs |
| ActivationQueue.NeverStuck | packages/crypto/src/index.ts:147-156 | an unsettled call always leaves a call that can move |
| ActivationQueue.RunsLikeInOrder | packages/crypto/src/index.ts:147-199 | once all settled, records and answers are those of the calls run one at a time in call order |
| ActivationQueue.RingAfterEveryRun | packages/crypto/src/index.ts:179-199 | versions are 1 to n, only n can be active, and it is active exactly when the last call succeeded |
| ActivationQueue.EnsureActiveCreatesOneKey | packages/crypto/src/index.ts:168-173 | any number of concurrent calls on an empty organization create exactly one key once a factory succeeds, and all successful calls answer it |
| ActivationQueue.FailedRotationLosesTheActiveKey | packages/crypto/src/index.ts:183-192 | a rotation whose factory fails leaves no active key |
| KeyRing.UnwrapOfWrap | packages/crypto/src/index.ts:76-108 | a wrapped key opens only as the version of the organization it was made for |
| KeyRing.ApplyKeeps | packages/crypto/src/index.ts:168-199 | a call keeps versions 1 to n with only n active, drops no record and touches no other organization; it leaves an active key exactly if its factory succeeds or was not needed |
| KeyRing.RunKeeps | packages/crypto/src/index.ts:168-199 | versions and records are kept over every run of calls, failing factories included |
| KeyRing.RunKeepsUsable | packages/crypto/src/index.ts:548-555 | keys of 32 bytes stay usable under the master key over every run |
| KeyRing.ApplyIsAlone | packages/crypto/src/index.ts:168-199 | the ring moves as one call of the promise chain does alone, failing factories included |
| KeyStore.DataKeyStore.GetActive | packages/crypto/src/index.ts:158-161 | the first active record, if any |
| KeyStore.DataKeyStore.GetVersion | packages/crypto/src/index.ts:163-166 | the first record of the version, if any |
| KeyStore.DataKeyStore.NextVersion | packages/crypto/src/index.ts:181 | one above the highest version |
| KeyStore.DataKeyStore.Activate | packages/crypto/src/index.ts:179-199 | active records are retired and, unless the factory fails, the new record is pushed, in that organization only |
| KeyStore.DataKeyStore.EnsureActive | packages/crypto/src/index.ts:168-173 | answers the active record, creating one only if there is none; if that fails there is none |
| KeyStore.DataKeyStore.RotateKey | packages/crypto/src/index.ts:175-177 | activates the next version, or fails and leaves no active key |
| Envelope.DecryptsForever | packages/crypto/src/index.ts:484-533 | a value decrypts after any later activations to its plaintext under its own context and under no other |
| Envelope.ForgeriesFail | packages/crypto/src/index.ts:506-533 | nothing but a sealed value decrypts, in particular no wrapped key |
| Envelope.OpensIffProduced | packages/crypto/src/index.ts:484-533 | a value decrypts to a plaintext exactly if encryption gives that value for that plaintext and context |
| Envelope.EnvelopeEncryptionService.Drop | packages/crypto/src/index.ts:563-564 | a dropped buffer is zeroed, all others stay the right keys |
| Envelope.EnvelopeEncryptionService.LoadKey | packages/crypto/src/index.ts:557-576 | at any clock the answer is what unwrapping gives; the cache stays within its limit, drops the expired then the oldest entry, zeroes what it drops and keeps the rest intact |
| Envelope.LoadedIsUsed | packages/crypto/src/index.ts:557-576 | a loaded key is used from the cache exactly until its time is up |
| Envelope.OthersStayInUse | packages/crypto/src/index.ts:557-576 | loading one key ends the use of another exactly if that is the oldest entry of a full cache and the load succeeds under a new name |
| Envelope.EnvelopeEncryptionService.ValidDespiteOthers | packages/crypto/src/index.ts:557-576 | activations by others leave every cached key right |
| Envelope.EnvelopeEncryptionService.Encrypt | packages/crypto/src/index.ts:484-504 | a complete context gives a value sealed under the active key, or the error of the factory or the key; an incomplete one changes nothing |
| Envelope.EnvelopeEncryptionService.Decrypt | packages/crypto/src/index.ts:506-533 | answers what it would without a cache, errors included |
| Envelope.EnvelopeEncryptionService.RotateDataKey | packages/crypto/src/index.ts:535-541 | answers the next version or the factory's error, or refuses an empty organization |
| Envelope.EnvelopeEncryptionService.ClearKeyCache | packages/crypto/src/index.ts:543-546 | every buffer is zeroed and the cache empty |
| RuntimeTag.TagReadsBack | apps/api/src/index.ts:2292-2308 | a printed tag, weak or not, is read as its version |
| RuntimeTag.HeaderReadsBack | apps/api/src/index.ts:2296-2308 | a padded list of tags is read as exactly its versions |
| RuntimeTag.NotModifiedIffCurrent | integrations/client/runtime.go:14-83 | a poll gets 304 exactly when it names the current version |
| RuntimeTag.NotModifiedIffMember | apps/api/src/index.ts:2296-2308 | for every header: 304 exactly if a member, trimmed, is an asterisk or names the current version; members that are neither change nothing |
| TargetSecret.RenderKeyValue | integrations/operator/internal/controller/himitsusecret_controller.go:268-276 | the KeyValue rendering is the secrets themselves, or refused for a key no data key may have |
| TargetSecret.DataKeyIff | integrations/operator/internal/controller/himitsusecret_controller.go:322-338 | the units a data key may have, and the names it may not be |
| TargetSecret.RenderedForms | integrations/operator/internal/controller/himitsusecret_controller.go:254-300 | which data each format renders, under which key, and when it is refused |
| TargetSecret.ParseOfDigits | integrations/operator/internal/controller/himitsusecret_controller.go:242-252 | a version stamp reads back |
| TargetSecret.ParseOfSigned | integrations/operator/internal/controller/himitsusecret_controller.go:242-252 | signed numbers of 64 bits are read, larger ones are not |
| TargetSecret.ListReadsBack | integrations/operator/internal/controller/himitsusecret_controller.go:458-464 | the managed-keys annotation reads back as the list, the empty one included |
| TargetSecret.WrittenIsManaged | integrations/operator/internal/controller/himitsusecret_controller.go:344-430 | after a write the managed data is exactly the rendered data, with its stamp, and the owned-by annotation is the name of the resource |
| TargetSecret.WrittenForm | integrations/operator/internal/controller/himitsusecret_controller.go:344-430 | an Owner write leaves exactly the rendered data; the type is that of the spec, else the one there, else Opaque |
| TargetSecret.WrittenMarks | integrations/operator/internal/controller/himitsusecret_controller.go:374-430 | annotations and labels of the operator win over the template, the template over what was there, and there are no others |
| TargetSecret.MergeWritesKey | integrations/operator/internal/controller/himitsusecret_controller.go:403-418 | a Merge write key by key: rendered keys set, known stale keys gone, others kept |
| TargetSecret.MergeIsExactIff | integrations/operator/internal/controller/himitsusecret_controller.go:381-414 | of the keys gone upstream, a Merge write clears exactly those written before if and only if the template leaves the annotation alone or lists the same keys there |
| TargetSecret.ForeignIsKeptIff | integrations/operator/internal/controller/himitsusecret_controller.go:381-418 | foreign keys keep their values if and only if those the source also has carry the same value there and those it lacks are not listed by the template |
| TargetSecret.CollidingKeyIsLost | integrations/operator/internal/controller/himitsusecret_controller.go:403-418 | a foreign key with the name of a secret is overwritten by the first write and deleted once the secret is gone upstream |
| TargetSecret.MergeOverRuns | integrations/operator/internal/controller/himitsusecret_controller.go:344-456 | over any run of Merge writes and foreign edits: the newest rendered data is there, dropped keys are gone, never rendered keys are as others left them |
| TargetWriter.KubeObject.Stamp | integrations/operator/internal/controller/himitsusecret_controller.go:374-405 | annotations, labels and type in the order the code sets them |
| TargetWriter.KubeObject.DropStale | integrations/operator/internal/controller/himitsusecret_controller.go:410-414 | the loop deletes exactly the stale keys that are not rendered |
| TargetWriter.PrepareTarget | integrations/operator/internal/controller/himitsusecret_controller.go:344-430 | the object sent is the written Secret and the one read is not edited |
| OperatorSafety.EveryRunKeeps | integrations/operator/internal/controller/himitsusecret_controller.go:98-175 | the protocol's invariant holds after every run of server changes, edits, deletions, failures and crashes |
| OperatorOwnership.ReadTargetIffNotForeign | integrations/operator/internal/controller/himitsusecret_controller.go:124-133 | a reconcile goes on from its target exactly if there is none or its owned-by annotation is absent, empty or the own name |
| OperatorOwnership.ForeignTargetsAreSpared | integrations/operator/internal/controller/himitsusecret_controller.go:98-240 | after any run no step of the operator changes or deletes a target annotated as another resource's, whenever the annotation was set |
| OperatorOwnership.WrittenIsForeignToOthers | integrations/operator/internal/controller/himitsusecret_controller.go:344-430 | what one resource wrote is annotated as another's for every other resource |
| OperatorTheorems.SyncedIsRight | integrations/operator/internal/controller/himitsusecret_controller.go:124-174 | a Synced report after a full fetch, or for a generation that had one, names the version whose rendering the target held |
| OperatorTheorems.ConditionalIsRightIff | integrations/operator/internal/controller/himitsusecret_controller.go:139-158 | a report after 304 is right exactly when the spec the target was written for renders to the same data at that version |
| OperatorTheorems.CarefulRunsAreSafe | integrations/operator/internal/controller/himitsusecret_controller.go:467-504 | 304 safety over every run in which no failed report lands between an edit and the next full fetch |
| OperatorTheorems.FixedSpecIsSafe | integrations/operator/internal/controller/himitsusecret_controller.go:98-175 | with a fixed spec every Synced report is right, whatever fails or is deleted |
| OperatorTheorems.OneReconcileConverges | integrations/operator/internal/controller/himitsusecret_controller.go:98-175 | from any reachable idle state one undisturbed reconcile ends Synced at the current version with its rendering in the target |
| OperatorTheorems.FailureAfterEditHidesIt | integrations/operator/internal/controller/himitsusecret_controller.go:491-504 | sync, edit, failed reconcile, poll: the target of one environment is reported as Synced for another at the same version, whatever the other one renders to |
| OperatorEdits.EditsThatKeepTheMeaning | integrations/operator/internal/controller/himitsusecret_controller.go:98-175 | if every edit keeps source, format and document key, every Synced report of every run is right, failures after edits included |
| OperatorEdits.AnyOtherEditCanHide | integrations/operator/internal/controller/himitsusecret_controller.go:467-504 | for every other edit that keeps the target there are contents and a run with no further edit that end in a wrong Synced report |
| OperatorServer.CommitsMoveServers | packages/secrets/src/index.ts:366-433 | every committed transaction moves an environment the way the operator's machine lets a server move |
| OperatorServer.ContentIsView | packages/secrets/src/index.ts:395-433 | the answered object holds exactly the active keys with their current values |
| OperatorDotenv.RenderParses | integrations/operator/internal/controller/himitsusecret_controller.go:302-320 | the document parses without issues to exactly its keys, unknown escapes left in the values, if and only if the keys are distinct dotenv keys |
| OperatorDotenv.RenderRoundTrip | integrations/operator/internal/controller/himitsusecret_controller.go:302-320 | it gives back keys and values if and only if the keys are distinct dotenv keys and every code point of a value is printable for Go, a line feed, a carriage return or a tab |
| OperatorDotenv.HashKeyVanishes | integrations/operator/internal/controller/himitsusecret_controller.go:302-320 | the secret of any stored key that starts with a hash sign is lost without an issue |
| OperatorDotenv.HashKeyIsAccepted | packages/secrets/src/index.ts:163-179 | the store takes the key `#a` with any value, and its rendering parses to nothing |
| FixedWindow.AtMostTwiceTheLimit | apps/api/src/index.ts:595-617 | with a monotone clock no closed interval of one window's length lets more than twice the limit through |
| FixedWindow.LimitPerOpening | apps/api/src/index.ts:595-617 | with a monotone clock an interval lets at most the limit through, once more for every window that opens inside it; the plain limit holds wherever none does |
| FixedWindow.TwiceTheLimitIsReached | apps/api/src/index.ts:595-617 | that bound is reached for every limit and window |
| FixedWindow.WaitingIsEnough | apps/api/src/index.ts:612-617 | an identity that waits the reported seconds is let through next |
| FixedWindow.WaitingLessIsNotEnough | apps/api/src/index.ts:612-617 | a refused identity that waits a second less is refused again |
| RateLimiter.BucketKeyIsInjective | apps/api/src/index.ts:598 | addresses and keys never share a bucket |
| RateLimiter.InMemoryRateLimiter.Consume | apps/api/src/index.ts:595-617 | at any clock the decision is that of the identity's remembered events, and the memory after it is stated in full; it is that of all its events exactly if its bucket was not forgotten too early, and always while the clock has not stepped back |
| RateLimiter.DecidedByCount | apps/api/src/index.ts:595-617 | in the window its first event opened an identity is let through exactly limit times, and told how often and how long is left |
| RateLimiter.InMemoryRateLimiter.NeverMoreThanTwice | apps/api/src/index.ts:580-618 | as long as the clock has not stepped back, no identity exceeds twice its limit in one window's length |
| LoginLimiter.LoginAttemptLimiter.IsBlocked | packages/auth/src/index.ts:63-74 | at any clock blocked exactly when the remembered failures of some identity are enough in a live window, and only expired ones are forgotten; while the clock has not stepped back, exactly when all its failures are |
| LoginLimiter.BlockedFromMaxFailures | packages/auth/src/index.ts:63-94 | exactly max failures within a live window block, one less does not, and the window ends the block |
| LoginLimiter.LoginAttemptLimiter.RecordFailure | packages/auth/src/index.ts:76-94 | each identity gets one failure, in order, and the answer is what the check would say, at any clock from the remembered failures and otherwise from all |
| LoginLimiter.LoginAttemptLimiter.Clear | packages/auth/src/index.ts:96-98 | the failures of the cleared identities are forgotten and no others |

## Left out

- Dotenv.ParseDotenv: the texts of issue messages, which only repeat line and key.
- LineExport.DotenvRoundTrip: the order `localeCompare` gives; the theorems hold for every order of the entries.
- NestedExport.BuildTree: printing the finished tree and parsing it again are taken as inverse up to member order.
- Transactions.Reachable: holds for serial transactions; two concurrent environment deletions, which take no lock, are not modelled, nor are requests that change the slug of an existing project or environment.
- Store.Tables.Transact: permissions, audit events, tags, change notes, names, descriptions, archiving and display order, which decide whether a request is made or what is shown but not these tables.
- Store.Tables.CreateProject: row ids are a counter, and slugs come trimmed and in lower case.
- Store.Tables.Promote: the source rows are an argument, any answer to the query; values are plaintexts here and sealed in `Envelope`.
- Utf8.StoredIsDecoded: `Decode` reads well-formed bytes, which is all that encoding writes.
- RuntimeConfig.NotModifiedIsCurrent: config versions beyond the safe integers, which are an error of the server.
- Consistency.AnalyzeConsistency: the final sort, and finding ids, which hash the fields given here; `toUpperCase` and the placeholder pattern are parameters.
- ConsistencyMatrix.BuildMatrix: the order of rows; `localeCompare` is any order, and of variants it finds equal any may be the one shown.
- ConsistencyCache.ReportCache.Compute: the hash is taken as collision-free; dispositions are applied afterwards and are not cached.
- Envelope.DecryptsForever: AES-GCM is ideal, and random bytes are arguments.
- Envelope.EnvelopeEncryptionService.LoadKey: calls on one service are sequential; buffers are zeroed on eviction, so overlapping calls on one service are not claimed.
- KeyStore.DataKeyStore.Activate: copies of records and their dates; what others see between retiring and pushing is in `ActivationQueue`.
- KeyRing.ApplyKeeps: the Postgres store calls its factory before it retires, in a transaction, so there a failure is no step at all.
- OperatorSafety.EveryRunKeeps: the resource is read as it is stored, so a stale informer cache is not covered, nor a write that lands after a crash; one reconcile runs at a time.
- OperatorEdits.AnyOtherEditCanHide: the document renderers are parameters that tell two contents, and each other on none, apart.
- OperatorOwnership.ForeignTargetsAreSpared: the cluster gives each write a new resource version, and a run starts with none that is still to come.
- OperatorTheorems.FixedSpecIsSafe: others do not present data as the operator's under its stamp.
- TargetWriter.PrepareTarget: the controller reference of the Owner policy.
- OperatorDotenv.RenderRoundTrip: `strconv.IsPrint` beyond ASCII is a parameter; values are valid Unicode, as Go's JSON decoder makes them.
- FixedWindow.AtMostTwiceTheLimit: needs a monotone clock; after a step back the limiters decide by what they remember, as their contracts say, and no bound over intervals is claimed.
- Audit paging, role matrix, HTTP plumbing, CLI, web pages, Terraform resources and email.
