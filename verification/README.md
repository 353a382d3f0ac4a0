# pk-modules: a verified model

A Dafny model of the parts of pk-modules whose guarantees are decided by code
rather than by a library: the migration ledger, the accessible palette, the
audit query compilers, API keys, the navigation rail, the module boundary
checker, and the stateful services over the session, branding, content and user
tables. `dafny verify dfyconfig.toml` checks all of it.

Each module follows one component of the repository. What the Go code does step
by step is a method with loops over locals, or a class whose fields the methods
reassign; each such method is proved equal to a function of its inputs and the
old state, and the properties are lemmas about those functions: over every
input, every run of operations, or every interleaving of statements.

| module | models |
|---|---|
| `Migrate`, `MigrateRuns` | one migration runner; any sequence of runs, failing anywhere |
| `MigrateConcurrent` | any number of runners interleaved statement by statement, with and without the lock |
| `MigrateDrift` | what changed SQL can get past when no lock is held, and exactly when |
| `Palette`, `PaletteLayer` | WCAG 2.1 luminance and contrast, the darkening loop, the emitted token layer |
| `AuditQuery` | one filter compiled to `?` and to `$n` SQL, and what both select |
| `ApiKeys`, `ApiKeyRuns` | scopes, the prefix index, the key lifecycle over whole runs |
| `Sidebar`, `Shell` | the merged rail on values, and on Go slices with shared arrays |
| `Boundary` | the import and selector analysis with its ratchet |
| `AuthSessions`, `Branding`, `Content`, `Users` | services over tables |
| `NavSlug` | DOM id fragments of labels |
| `Text`, `Sequences` | Go strings, trimming and order; filters, stable sorts, pages |

Conventions. A string is a sequence of runes and `ByteLen` its UTF-8 length;
slices of strings are taken at characters, which for the stored prefixes and
digits are bytes. Times are integers and 0 is the zero time. The clock and random
identifiers and secrets are parameters of the call they affect. Where the code
reacts to a failure of the database (migrations, Login, the API key calls,
branding Save and Skip) the failure is a parameter too; elsewhere statements
work. Each SQL statement is one atomic step on a table, and how the engine
orders rows an ORDER BY leaves tied is a parameter of the query where it matters.
`x^2.4` is any function whose value `y` is nonnegative with `y^5 = x^12`; the
arithmetic is over the reals and only the 8-bit grid rounds. SHA-256 is a function parameter,
injective where a lemma says so. Password and key hashing is ideal: a hash
verifies exactly the text it was made from. `tokens.CSSVars` and
`http.DetectContentType` are function parameters.

## Where the code and its comments part

- The ledger re-check inside the transaction asks for the name only
  (pkg/migrate/migrate.go:251-265), so without a lock a runner with a stale
  snapshot can return nil over SQL it does not ship; "fails loudly" on changed SQL
  (lines 23-25) then fails, though nothing is applied twice (lines 41-42).
  `MigrateDrift.DriftIsCaughtExactly` says when: for any undisturbed runners, every
  schedule is free of this if and only if no two builds of one module that the
  database would admit ship different SQL under one name it lacks. Under the mutex
  and the advisory lock it cannot happen; two processes over one SQLite file could
  meet it, which the package puts out of scope (lines 38-39).
- Update preserves authorship (pkg/content/service.go:88-89) exactly as long as,
  for each Update that succeeds, the insert in force at its Get and the one in
  force at its write have one author (`Content.AuthorsAreKeptExactly`). Reusing an
  id between the two breaks it (`Content.ReusedIdTakesOldAuthor`); tenant, creation
  time and publication state are safe even then.
- Audit pages are ordered by time alone (pkg/audit/store/sqlite/sqlite.go:176-178).
  They give each event once, however each query orders equal times, if and only if
  no page ends between two matching events of one time (`AuditQuery.AnswersTile`).
- The surface rule (pkg/modulecontract/contract.go:24-25) is checked on selectors.
  It covers every way to name a sibling's identifier if and only if no source
  dot-imports a sibling (`Boundary.DotImportsEscapeExactly`).
- Distinct labels do not give distinct ids, as the comment at
  pkg/admin/view_chrome.go:282-283 has it; they share one exactly when they have the
  same words (`NavSlug.SharedSlugs`).

## Model

| member | source | states |
|---|---|---|
| `Migrate.Validate` | pkg/migrate/migrate.go:192-211 | the loop with its set of seen names reports the first offending entry, with the first of its problems |
| `Migrate.ValidateAcceptsExactlyWellFormed` | pkg/migrate/migrate.go:190-211 | a list is accepted if and only if every entry has a name and SQL and all names ascend strictly |
| `Migrate.ValidateReportsFirst` | pkg/migrate/migrate.go:192-211 | which entry is reported and why: a missing name before missing SQL, a repeated name before one out of order, each if and only if it is the case |
| `Migrate.Reconcile` | pkg/migrate/migrate.go:214-242 | walking the sorted names reports the least recorded name that is unknown or drifted, and which of the two it is |
| `MigrateRuns.ReconciledMeans` | pkg/migrate/migrate.go:214-242 | no complaint if and only if every recorded name is shipped with SQL of the recorded checksum |
| `MigrateRuns.ReconciledReports` | pkg/migrate/migrate.go:214-242 | drift of a name if and only if it is the least recorded one not shipped with its checksum and it is shipped; an unknown migration if and only if it is that one and is not |
| `Migrate.Database.AppliedFor` | pkg/migrate/migrate.go:282-302 | the snapshot is exactly the module's rows, by name |
| `Migrate.Database.Apply` | pkg/migrate/migrate.go:244-280 | one buffered transaction: nothing happens unless the commit takes effect, and then the SQL and its row appear together |
| `MigrateRuns.AppliedExactly` | pkg/migrate/migrate.go:244-280 | under each fault: the error with its stage, nothing done, or the SQL and its row with checksum and time; a recorded migration is left alone |
| `Migrate.Database.Run` | pkg/migrate/migrate.go:112-159 | the run with its checks, lock and deferred unlock changes ledger and history as the outcome function says, under every fault |
| `Migrate.Database.RunLocked` | pkg/migrate/migrate.go:139-158 | what happens between lock and unlock |
| `MigrateRuns.RunReports` | pkg/migrate/migrate.go:112-151 | each error up to and including the comparison with the ledger, if and only if it is the first that applies |
| `MigrateRuns.RunReportsStages` | pkg/migrate/migrate.go:126-159 | past it: the first missing migration the database disturbs is reported with its stage, a failed unlock only when there is none, and nil exactly otherwise |
| `MigrateRuns.RunExtends` | pkg/migrate/migrate.go:139-158 | every run commits, in order and with the right checksums, an initial part of what the ledger lacked; all of it if it returns nil |
| `MigrateRuns.RunAgrees` | pkg/migrate/migrate.go:244-280 | every run keeps ledger and committed history naming the same migrations, each once, with the checksum of the committed SQL |
| `MigrateRuns.NilMeansShipped` | pkg/migrate/migrate.go:139-158 | after nil the module's rows are exactly the shipped names with the shipped checksums |
| `MigrateRuns.RefusalTouchesNothing` | pkg/migrate/migrate.go:192-242 | every error before the first transaction, drift and unknown migrations included, leaves ledger and schema as they were |
| `MigrateRuns.SucceedsExactlyWhenReconciled` | pkg/migrate/migrate.go:112-159 | without faults a run returns nil if and only if the module is named, the list well formed, and everything recorded is shipped unchanged |
| `MigrateRuns.RunReadsOwnRows` | pkg/migrate/migrate.go:282-302 | databases that agree on the module's rows give the same result and still agree afterwards |
| `MigrateRuns.RunKeepsOtherModules` | pkg/migrate/migrate.go:244-280 | rows and commit history of every other module are untouched |
| `MigrateRuns.RunsProgress` | pkg/migrate/migrate.go:112-159 | any sequence of runs that ship the module one list, stopping anywhere, has committed in order an initial part of what the module lacked at the start |
| `MigrateRuns.Resume` | pkg/migrate/migrate.go:112-159 | any runs of one list, failing wherever they fail, followed by one that returns nil leave the module's records and commits, and if no other module ran the whole history, as one uninterrupted run would |
| `MigrateRuns.ShippedExactlyOnce` | pkg/migrate/migrate.go:244-280 | after nil each shipped migration's SQL stands in the committed history exactly once |
| `MigrateRuns.FurtherRunsChangeNothing` | pkg/migrate/migrate.go:110-111 | after nil, running the same list again changes nothing, whatever fails in it |
| `MigrateRuns.GrowingListsStayOrdered` | pkg/migrate/migrate.go:139-158 | if every build's list is an initial part of one list, then over any runs the module's commit history ascends strictly by name |
| `MigrateConcurrent.AtMostOnceInEveryInterleaving` | pkg/migrate/migrate.go:244-280 | with both locks removed and any stale snapshots, no migration is committed twice and ledger and history never part |
| `MigrateConcurrent.NilMeansRecordedInEveryInterleaving` | pkg/migrate/migrate.go:148-158 | in every interleaving, a runner that returns nil has every migration it ships in the ledger |
| `MigrateConcurrent.OrderInEveryInterleaving` | pkg/migrate/migrate.go:148-158 | with no locks, if builds ship initial parts of one list, a module's commits are an initial part of that list, in order |
| `MigrateConcurrent.EveryRunnerFinishes` | pkg/migrate/migrate.go:148-158 | no runner waits for another between statements: enough turns of its own end it in every schedule |
| `MigrateConcurrent.AdvanceKeepsOutlook` | pkg/migrate/migrate.go:112-159 | taken alone, the runner split into statements has the outcome of the sequential run |
| `MigrateConcurrent.LockMakesRunsSerial` | pkg/migrate/migrate.go:126-137 | under the lock, freed or left stuck by a failed unlock, every schedule leaves the database the admitted runs leave one after another, with the same results |
| `MigrateConcurrent.HolderFreesLock` | pkg/migrate/migrate.go:126-137 | in every schedule the holder frees the lock within as many of its turns as it has statements left |
| `MigrateConcurrent.StuckLockBlocks` | pkg/migrate/migrate.go:129-131 | once a failed unlock has left the advisory lock held, no run that needs it is admitted in any schedule |
| `MigrateConcurrent.SerialRunsNeverClash` | pkg/migrate/migrate.go:251-253 | a run alone with the database never meets a primary-key clash |
| `MigrateDrift.CompatibleBuildsFindOwn` | pkg/migrate/migrate.go:244-280 | with no lock, any faults and any schedule: if no two admissible builds of a module disagree on a missing migration, a nil runner finds every shipped name recorded with its own checksum |
| `MigrateDrift.StaleSnapshotMissesDrift` | pkg/migrate/migrate.go:251-265 | for any two undisturbed runners whose builds do disagree, a schedule exists in which both return nil and only the first one's SQL is recorded |
| `MigrateDrift.DriftIsCaughtExactly` | pkg/migrate/migrate.go:139-158 | for any undisturbed runners from any database: nil means the runner's own SQL in every schedule if and only if there is no such pair |
| `Palette.LuminanceMonotone` | pkg/branding/palette.go:244-252 | a channelwise darker colour has no greater relative luminance, all within [0, 1] |
| `Palette.LuminanceWeights` | pkg/branding/palette.go:244-252 | the primaries alone have luminance 0.2126, 0.7152 and 0.0722, and a colour that of its channels together |
| `Palette.LinearMeans` | pkg/branding/palette.go:245-250 | the sRGB curve is the line up to 0.04045, and above it the fifth power of its value is the twelfth power of (c + 0.055) / 1.055 |
| `Palette.ReadableIffDark` | pkg/branding/palette.go:256-260 | contrast with white reaches 4.5 if and only if luminance is at most 11/60 |
| `Palette.ContrastMeans` | pkg/branding/palette.go:256-260 | the ratio is symmetric, at least 1, and the lighter over the darker, each raised by 0.05 |
| `Palette.DarkerStaysReadable` | pkg/branding/palette.go:256-260 | darkening never loses 4.5:1 against white |
| `Palette.QuantizedIdempotent` | pkg/branding/palette.go:228-236 | rounding to the 8-bit grid is idempotent and lands in gamut |
| `Palette.ByteIsNearest` | pkg/branding/palette.go:228-240 | a channel becomes the nearest byte, the higher of two as near, and is cut off outside the range |
| `Palette.ShadesDarken` | pkg/branding/palette.go:264-267 | from step to step no channel of the rounded shade and no luminance increases |
| `Palette.ShadeMeans` | pkg/branding/palette.go:262-267 | step k keeps 20 - k twentieths of each channel, rounded, and nothing from step 20 on |
| `Palette.WhiteNeedsElevenSteps` | pkg/branding/palette.go:22-28 | white first reaches 4.5:1 at step 11, as #737373; steps 0 to 10 fail |
| `Palette.StepElevenIsReadable` | pkg/branding/palette.go:19-28 | every colour is readable from step 11 on |
| `Palette.CorrectAccent` | pkg/branding/palette.go:180-195 | the unbounded loop ends by step 11 at the least step that reaches 4.5:1 on the rounded colour, always with white, never with ink |
| `Palette.CorrectionIsIdempotent` | pkg/branding/palette.go:180-195 | correcting a corrected accent changes nothing |
| `Palette.HoverStaysReadable` | pkg/branding/palette.go:109-117 | the hover colour, rounded again when emitted, is no lighter than the accent and still reaches 4.5:1 against white |
| `PaletteLayer.ParseOfToHex` | pkg/branding/palette.go:199-226 | the emitted string reads back as the rounded colour that was measured |
| `PaletteLayer.ParseReports` | pkg/branding/palette.go:199-220 | which of the three complaints a refused colour gets |
| `PaletteLayer.ShortFormDoubles` | pkg/branding/palette.go:204-206 | #abc reads as #aabbcc |
| `PaletteLayer.CanonicalKeepsColor` | pkg/branding/palette.go:199-226 | emitting an accepted colour, short form included, keeps it |
| `PaletteLayer.CanonicalIsIdentity` | pkg/branding/palette.go:199-226 | a lower-case six-digit colour is emitted as it was written |
| `PaletteLayer.DeriveLayer` | pkg/branding/palette.go:95-150 | the two maps filled entry by entry are the layer, with one type per overridden path |
| `PaletteLayer.DerivesExactlyAcceptable` | pkg/branding/palette.go:86-150 | a layer is derived if and only if each half is blank or valid after trimming, and padding makes no difference |
| `PaletteLayer.DerivesWhat` | pkg/branding/palette.go:86-136 | nothing to override if and only if both fields are blank; a bad colour is reported with its reason before an unknown font |
| `PaletteLayer.FontsAndTypes` | pkg/branding/palette.go:130-149 | the font paths are overridden if and only if a key is given, both by its catalog stack; every path has its own type and no other path has one |
| `PaletteLayer.EmittedPairsMeasureAA` | pkg/branding/palette.go:28-50 | for every accepted primary, accent and hover as emitted measure 4.5:1 against accent.on, and signal and focus read back as the primary |
| `PaletteLayer.EmitsWhat` | pkg/branding/palette.go:104-128 | the emitted strings are those of the least readable shade, of 92 hundredths of it, of white, and twice of the primary itself |
| `AuditQuery.CompileSqlite` | pkg/audit/store/sqlite/sqlite.go:131-179 | clauses and arguments spell the filter's tests pairwise, followed by the clamped limit and offset |
| `AuditQuery.CompilePostgres` | pkg/audit/store/postgres/postgres.go:131-183 | the same tests, with the i-th clause numbered $i and the page bounds numbered last: counter and argument list never part |
| `AuditQuery.PositionalMeansFilter` | pkg/audit/store/sqlite/sqlite.go:131-179 | binding `?` in order gives the page of the tenant's matching events, for every filter, log and order the engine picks |
| `AuditQuery.NumberedMeansFilter` | pkg/audit/store/postgres/postgres.go:131-183 | binding `$n` by number uses every argument and gives the same page |
| `AuditQuery.AnswerIsSound` | pkg/audit/store/sqlite/sqlite.go:123-197 | answers are in time order, within the limit, and hold only the tenant's own matching events |
| `AuditQuery.AnswerLength` | pkg/audit/store/sqlite/sqlite.go:132-179 | an answer has as many events as remain from the offset, cut at the limit; 100 for no limit, never over 1000, an offset below 0 is 0 |
| `AuditQuery.AnswersTile` | pkg/audit/store/sqlite/sqlite.go:132-179 | enough pages at multiples of the clamped limit join to every matching event exactly once, for every choice of order by every query, if and only if no page ends between two matching events of one time |
| `AuditQuery.TieRepeats` | pkg/audit/store/sqlite/sqlite.go:176-178 | where a page does, orders exist under which an event is returned twice |
| `AuditQuery.DistinctTimesTile` | pkg/audit/store/sqlite/sqlite.go:132-179 | with distinct times there is one order, and the pages join to it |
| `AuditQuery.OtherTenantsAreInvisible` | pkg/audit/store/sqlite/sqlite.go:128-150 | removing every other tenant's events changes no answer |
| `AuditQuery.EventLog.Append` | pkg/audit/store/sqlite/sqlite.go:101-121 | appends exactly when the id is new, stamping an unset time; earlier events never change |
| `AuditQuery.EventLog.QuerySqlite` | pkg/audit/store/sqlite/sqlite.go:127-197 | compiled, bound and executed under any order of ties, the query is the filter's answer |
| `AuditQuery.EventLog.QueryPostgres` | pkg/audit/store/postgres/postgres.go:127-201 | likewise, hence under one order the two stores answer alike |
| `ApiKeys.NormalizeScopes` | pkg/apikey/service.go:206-237 | the loop returns the normalized scopes or the first complaint |
| `ApiKeys.NormalizedMeans` | pkg/apikey/service.go:206-237 | accepted if and only if there are at most 50 scopes and each, trimmed, is in the catalog; the result is their first occurrences, in order |
| `ApiKeys.NormalizedReports` | pkg/apikey/service.go:206-237 | too many scopes come first; else the first that may not be granted is reported, with its fault |
| `ApiKeys.BuildScopeCatalog` | pkg/apikey/service.go:180-204 | the map is the catalog and the slice its sorted listing |
| `ApiKeys.CatalogMeans` | pkg/apikey/service.go:180-204 | built if and only if every additional name is valid and not reserved; holds defaults and additions once each and nothing reserved |
| `ApiKeys.CatalogReports` | pkg/apikey/service.go:180-204 | the first name that may not be in a catalog decides the error |
| `ApiKeys.KeyService.Issue` | pkg/apikey/service.go:98-178 | refuses in the order of the checks, else stores one row whose prefix and hash are those of the returned plaintext |
| `ApiKeys.IssuesExactly` | pkg/apikey/service.go:105-157 | a key is issued if and only if tenant, user and name are given, every scope is acceptable, nothing outside fails and the id is new |
| `ApiKeys.IssuedRowHolds` | pkg/apikey/service.go:98-178 | the stored row has the given id, the trimmed tenant, user and name, the distinct trimmed scopes, the first twelve characters of the secret and the hash of the plaintext, the time of issue, no revocation and no use, and expires at now plus the lifetime if and only if one is given |
| `ApiKeys.IssueReports` | pkg/apikey/service.go:98-178 | each refusal if and only if it is the first that applies |
| `ApiKeys.KeyService.Verify` | pkg/apikey/service.go:242-278 | the first candidate under the prefix whose hash matches decides between revoked, expired and accepted; at most last_used_at changes; a failing lookup is reported as such |
| `ApiKeys.VerifyTouchesExactly` | pkg/apikey/service.go:242-299 | a Verify stamps the verified row and changes nothing else |
| `ApiKeys.KeyService.Revoke` | pkg/apikey/store/sqlite/sqlite.go:191-214 | stamps the tenant's own live row, once; not found exactly when there is no such row and every statement works; what each failing statement leaves and reports |
| `ApiKeys.KeyService.List` | pkg/apikey/service.go:301-319 | each of the tenant's unrevoked keys as often as it is stored, no other, newest first |
| `ApiKeyRuns.IndexAgreesWithScan` | pkg/apikey/service.go:242-278 | in every reachable state, verifying through the prefix index gives the outcome of comparing every row's hash |
| `ApiKeyRuns.CandidateOrderIsIrrelevant` | pkg/apikey/store/sqlite/sqlite.go:143-161 | with distinct hashes, the order in which rows come back decides nothing |
| `ApiKeyRuns.LifecycleIsOneWay` | pkg/apikey/store/sqlite/sqlite.go:194-232 | over every run a row keeps its identity, revoked_at is written at most once, and only by a Revoke with the row's tenant and id |
| `ApiKeyRuns.DeadKeysStayDead` | pkg/apikey/service.go:255-278 | a key once reported revoked or expired never verifies later, whatever runs in between |
| `ApiKeyRuns.IssuedKeyVerifiesUntilRevokedOrExpired` | pkg/apikey/service.go:98-299 | an issued key verifies with what was requested exactly until a Revoke by the requesting tenant or the time of issue plus the lifetime, through all other operations; past them it is reported revoked or expired |
| `ApiKeyRuns.VerifiedAndListedKeys` | pkg/apikey/service.go:206-319 | verified keys carry distinct, cataloged, unreserved scopes; lists hold exactly the tenant's unrevoked keys, newest first |
| `Sidebar.RailIsMergedByLabel` | pkg/admin/shell.go:283-323 | one group per label, groups in (Order, Label) order at their earliest member's Order, items in (Order, registration) order |
| `Sidebar.RailIsOpenedByFirst` | pkg/admin/shell.go:304-321 | each group carries the owner and Order of the earliest registered section among those of its label with the lowest Order |
| `Sidebar.RailConservesItems` | pkg/admin/shell.go:297-323 | no item is lost or duplicated |
| `Shell.Append` | pkg/admin/shell.go:312-319 | Go's append on slices that start anywhere and may share an array: shows both contents, and writes only spare capacity or a new array |
| `Shell.MergeMember` | pkg/admin/shell.go:310-321 | one turn of the group-by with its index map, writing only to arrays the merge itself made |
| `Shell.AdminShell.SidebarSections` | pkg/admin/shell.go:297-323 | shows the merged rail in fresh arrays; no registered slice, wherever it starts, changes |
| `Shell.AdminShell.RegisterSidebarSection` | pkg/admin/shell.go:247-263 | refuses a blank owner or label and a second section of the same owner and label, else appends |
| `Shell.AdminShell.ModulesSummary` | pkg/admin/shell.go:673-704 | one entry per module that registered anything, in strict id order, with all it registered in order |
| `Shell.SummaryHolds` | pkg/admin/shell.go:673-704 | an entry holds each thing as often as its module registered it, and nothing of another module |
| `Boundary.SiblingImportMeans` | pkg/modulecontract/contract.go:188-206 | an import counts as a sibling's exactly when its path is the module path, a listed module that is neither the consumer nor vocabulary, and after a slash the subpackage |
| `Boundary.InspectFile` | pkg/modulecontract/contract.go:175-251 | the import pass and the syntax walk report exactly the subpackage imports and the undeclared selectors at any depth, and mark exactly the ports the file names; it fails exactly if the file does not parse |
| `Boundary.ReferencesAre` | pkg/modulecontract/contract.go:220-247 | the walk collects exactly the selectors with a bare identifier as base that occur anywhere in the tree |
| `Boundary.AliasesMean` | pkg/modulecontract/contract.go:180-213 | a local name stands for the sibling whose root package the last import binding that name reaches |
| `Boundary.StaleDeclarations` | pkg/modulecontract/contract.go:150-171 | reports exactly the declared ports no one marked |
| `Boundary.WalkModule` | pkg/modulecontract/contract.go:112-139 | adds a module's files to what was gathered, and fails exactly if one does not parse |
| `Boundary.Verify` | pkg/modulecontract/contract.go:105-145 | for every tree, the result is sorted by position and holds exactly the subpackage imports, the selectors at any depth that name no port of the sibling their base stands for, and the ports no source names; it fails exactly if a source does not parse, naming one that does not |
| `Boundary.FoundAreBreaches` | pkg/modulecontract/contract.go:105-251 | what the walk finds is what breaches the contract, stated over imports, names and subterms |
| `Boundary.TreeMeans` | pkg/modulecontract/contract.go:105-280 | modules are the directories with Go files that are not vocabulary, and sources their Go files but for tests |
| `Boundary.CleanMeansContractHolds` | pkg/modulecontract/contract.go:105-251 | no breach if and only if no source imports a sibling's subpackage, every selector through a name that stands for a sibling is a declared port, and every port is named by some source |
| `Boundary.DotImportsEscapeExactly` | pkg/modulecontract/contract.go:207-237 | the selector check covers bare names too, for all code under a file's imports, if and only if none is a dot import of a sibling |
| `AuthSessions.AuthService.Login` | pkg/auth/service.go:102-168 | refuses in the order of the checks, else stores one session; each allowed attempt is settled once |
| `AuthSessions.AuthService.Logout` | pkg/auth/store/sqlite/sqlite.go:130-151 | revokes that session if live; not found exactly when absent |
| `AuthSessions.AuthService.InvalidateAllSessions` | pkg/auth/store/sqlite/sqlite.go:154-165 | revokes the user's live sessions and touches no other |
| `AuthSessions.LoginSucceedsExactly` | pkg/auth/service.go:102-168 | a session is issued if and only if the attempt is well formed and allowed, the user active, the password theirs, and the session can be made and stored; it is the user's, under the trimmed tenant, from now for the configured lifetime |
| `AuthSessions.LoginReports` | pkg/auth/service.go:102-168 | each refusal if and only if it is the first that applies |
| `AuthSessions.ValidExactlyWhileLive` | pkg/auth/service.go:102-220 | over every run, a session validates at t, as the Login made it, if and only if nothing ended it since and t is not past its expiry |
| `AuthSessions.ValidateReports` | pkg/auth/service.go:172-220 | over every run, each refusal exactly when it applies: never created, ended since, past its expiry |
| `AuthSessions.DeadSessionsStayDead` | pkg/auth/service.go:172-220 | a session once reported revoked or expired never validates later |
| `AuthSessions.ReservationsAreReleased` | pkg/auth/service.go:102-168 | after every run allowed attempts equal successes plus failures, attempt by attempt |
| `AuthSessions.ThrottleCountsExactly` | pkg/auth/service.go:102-148 | over every run and for each attempt, successes are exactly its allowed, well-formed logins with the user's own password, failures exactly those without, each under the trimmed tenant and identifier |
| `Branding.BrandingService.Save` | pkg/branding/service.go:156-215 | the first failing check is reported and the table untouched, else the merged record is upserted |
| `Branding.SaveReports` | pkg/branding/service.go:156-255 | each refusal if and only if it is the first that applies |
| `Branding.BrandingService.Skip` | pkg/branding/service.go:220-232 | a fresh record with only the name and a new stamp replaces the old |
| `Branding.SkipReports` | pkg/branding/service.go:217-255 | likewise |
| `Branding.BrandingService.Upsert` | pkg/branding/store/sqlite/sqlite.go:123-156 | creation time survives a conflict, everything else is replaced |
| `Branding.BrandingService.ValidateLogo` | pkg/branding/service.go:288-312 | accepts exactly logos of at most 1 MiB declared svg with the tag ending within the first 512 bytes, or of the accepted type they are sniffed as; the search is a loop over the bytes |
| `Branding.LogoReports` | pkg/branding/service.go:288-312 | which of the faults a refused logo has |
| `Branding.StoredRecordsAlwaysRender` | pkg/branding/service.go:115-255 | after any Saves and Skips every stored record meets all field limits and its CSS derives |
| `Branding.HistoryIsKept` | pkg/branding/store/sqlite/sqlite.go:114-156 | records are never removed, creation times never change, completed setup never reverts |
| `Branding.SaveAndLogo` | pkg/branding/service.go:183-211 | a Save without a logo keeps the stored one, with one replaces it, and other tenants' records stay |
| `Branding.SaveStores` | pkg/branding/service.go:200-215 | an accepted Save stores name, colour and font trimmed, and the alternative text whenever there is a logo |
| `Branding.LogoIsStored` | pkg/branding/service.go:136-149 | the logo answered is the stored one with its type; a record without one, or none, is not found |
| `Branding.WriteStamps` | pkg/branding/store/sqlite/sqlite.go:123-156 | every write is stamped now, keeps an earlier creation time, and completes setup at the first Save or the last Skip |
| `Branding.SaveIsRendered` | pkg/branding/service.go:115-215 | after an accepted Save the CSS is empty if both fields are blank, and otherwise what the renderer makes of the layer the submission derives |
| `Branding.CssIsRendered` | pkg/branding/palette.go:152-161 | for every colour and font: the error of the derivation, nothing, or exactly the rendering of the derived layer |
| `Branding.SkipClears` | pkg/branding/service.go:217-232 | after an accepted Skip the tenant renders no overrides and has no logo; other tenants' records stay |
| `Branding.StampSurvivesUnlessSkipped` | pkg/branding/service.go:220-255 | the completion stamp changes if and only if the store takes a Skip of that tenant, with a name of 1 to 120 runes, at another time |
| `Content.ContentService.Exec` | pkg/content/store/sqlite/sqlite.go:106-274 | one statement under the primary key and the (tenant, kind, slug) constraint, refused without effect |
| `Content.ContentService.Serve` | pkg/content/service.go:33-163 | validation, the Get and the write of each call, run without interruption |
| `Content.UninterruptedCall` | pkg/content/service.go:33-163 | a call whose two statements are adjacent does what the service call says |
| `Content.CallsTakeEffect` | pkg/content/service.go:33-163 | in every interleaving a call that reports success has just changed its own row as asked, from the one it finds then, and no other |
| `Content.RefusedCallsChangeNothing` | pkg/content/service.go:33-163 | one that does not changes nothing, and each refusal is reported exactly when it applies |
| `Content.EveryInterleavingIsFaithful` | pkg/content/service.go:90-163 | in every interleaving rows keep the latest publication decision, tenant, creation time and last text; deleted rows stay deleted; slots stay unique |
| `Content.ExecuteKeepsSlots` | pkg/content/store/sqlite/sqlite.go:70-84 | no statement makes two rows share (tenant, kind, slug) |
| `Content.AcknowledgedCallsAreLogged` | pkg/content/service.go:33-163 | in every interleaving the statements the table shows are one for each call that reported success, run by its own process and doing what it asked, and none for any other |
| `Content.AuthorsAreKeptExactly` | pkg/content/service.go:88-114 | over every schedule, every row carries its insert's author at every point if and only if for each Update that succeeds the inserts in force at its Get and at its write have one author |
| `Content.AuthorsAreKept` | pkg/content/service.go:88-114 | in particular whenever no id is inserted twice |
| `Content.ReusedIdTakesOldAuthor` | pkg/content/service.go:98-107 | for every id and any two different authors, a schedule that reuses the id breaks the condition and gives the new row the old author |
| `Users.UserStore.Create` | pkg/user/store/sqlite/sqlite.go:102-123 | inserts the stamped row or reports every broken constraint and changes nothing |
| `Users.UserStore.Update` | pkg/user/store/sqlite/sqlite.go:180-201 | not found before constraints; otherwise only the named columns of the tenant's row change |
| `Users.UserStore.UpdatePassHash` | pkg/user/store/sqlite/sqlite.go:206-226 | only hash and stamp of the tenant's row change |
| `Users.UserStore.Delete` | pkg/user/store/sqlite/sqlite.go:230-243 | removes the tenant's row, and no other |
| `Users.UserStore.List` | pkg/user/store/sqlite/sqlite.go:144-176 | one page of the tenant's users by username, limits clamped |
| `Users.PageLength` | pkg/user/store/sqlite/sqlite.go:144-176 | a page has as many users as remain from the offset, cut at the limit; 50 for no limit, never over 1000, an offset below 0 is 0 |
| `Users.StepStaysConstrained` | pkg/user/store/sqlite/sqlite.go:71-86 | every call keeps ids unique, and emails and usernames unique within a tenant |
| `Users.RowsChangeOnlyAsAsked` | pkg/user/store/sqlite/sqlite.go:178-226 | a surviving row changes only by its own tenant's Update, credential excepted, or UpdatePassHash, credential only; tenant and creation time never |
| `Users.LookupsAreExact` | pkg/user/store/sqlite/sqlite.go:125-141 | a lookup by id, email or username finds a row if and only if it is the tenant's row with that key |
| `Users.WritesSucceedExactly` | pkg/user/store/sqlite/sqlite.go:102-243 | a create succeeds if and only if no row clashes with it; an update if and only if the tenant has the row and no other row of the tenant clashes; hash changes and deletes if and only if the tenant has the row |
| `Users.WritesAreRead` | pkg/user/store/sqlite/sqlite.go:102-243 | after a successful write the next Get returns what was written, or nothing after a delete |
| `Users.TenantsDoNotInterfere` | pkg/user/store/sqlite/sqlite.go:102-243 | over every mixed run one tenant's rows and replies are those of running its own calls alone, less its creates with an id another tenant holds |
| `Users.TakenIdIsRefused` | pkg/user/store/sqlite/sqlite.go:71-72 | those creates are refused on the primary key and change nothing |
| `Users.ListTiles` | pkg/user/store/sqlite/sqlite.go:144-176 | in a constrained table, pages at multiples of the clamped limit list each of the tenant's users exactly once, in strict username order |
| `Users.EveryRunIsConstrained` | pkg/user/store/sqlite/sqlite.go:71-86 | every reachable table is constrained |
| `NavSlug.Build` | pkg/admin/view_chrome.go:284-304 | the loop with its pending hyphen joins the lowered label's maximal runs of letters and digits |
| `NavSlug.CapitalsLower` | pkg/admin/view_chrome.go:284-304 | a capital lowers to its own small letter, and of the other runes only the Kelvin sign and the dotted I lower to one |
| `NavSlug.SlugFitsPattern` | pkg/admin/view_form.go:172-178 | every result matches the slug pattern |
| `NavSlug.SlugFixesExactlyThePattern` | pkg/admin/view_chrome.go:284-304 | a label is its own slug if and only if it matches the pattern |
| `NavSlug.SlugIsIdempotent` | pkg/admin/view_chrome.go:284-304 | slugging twice is slugging once |
| `NavSlug.SlugKeepsLetters` | pkg/admin/view_chrome.go:284-304 | the lowered letters and digits survive in order; a label without any becomes "section" |
| `NavSlug.WordsOfJoined` | pkg/admin/view_chrome.go:284-304 | joining words and splitting into words are inverse |
| `NavSlug.SharedSlugs` | pkg/admin/view_chrome.go:281-283 | two labels share an id if and only if their words are the same |
| `NavSlug.SeparatorsAreLost` | pkg/admin/view_chrome.go:281-283 | labels that differ in one separator share an id |

## Left out

- HTTP handlers, views, CSS composition and multipart parsing: user interface.
- Audit emission, event details and log text: best effort by design, never part of a result.
- `migrate.Status`, functional options, wiring, and the health, tenant and notification modules: only easy members.
- The postgres stores other than audit: the same statements as the sqlite ones.
- Classification of driver error text: constraint outcomes are modelled directly.
- Loops that only copy scanned rows into a result slice: the result is taken as the query's rows.
- Failing statements of the session, user, content and audit stores: they return the error and change nothing.
- `RWMutex` sections of the shell: each method is one atomic step.
- `content` List and GetBySlug, and the synthesized content id: no new property; the id is a parameter.
- `branding` ResolveBranding: a projection of the stored record.
- Concurrent branding Saves, and sqlite migrations from several processes: out of the source's own scope.
- Floating-point rounding in luminance: the reals are exact, the 8-bit rounding is modelled.
- Upper and lower case outside ASCII in NavSlug: a rune that does not lower into ASCII stays a separator either way.
- Users.UserStore.Create: returns the set of broken constraints, of which the driver's message names one.
- Content.ContentService.Exec: when an insert breaks both constraints it reports the primary key, where the driver may name either.
- Timestamps the user and audit stores write back into the caller's struct: the stored row carries them.
- Boundary.Verify: says which violations are reported, not how often the same one is.
- Boundary.InspectFile: a file is its imports and selector expressions, with positions as given by the parser.
