# Protocols and transformations of Accountable, verified

A Dafny model of the small protocols and transformations inside the Accountable repository, with proofs of
what they promise. `dafny verify dfyconfig.toml` checks all of it.

Most parts have the same shape. A pure step machine says what one statement, call or event does. Theorems
about every run of that machine, in any interleaving, are proved as inductive invariants. Beside it stand
methods or classes written the way the source is written (loops, fields updated in place, early returns),
each proved equal to the specification the theorems speak about.

| part | files |
|---|---|
| schema migration: advisory lock, goose version, state row, any number of crashing migrators | `SchemaState`, `SchemaMigration`, `MigrationWorld`, `MigrationRun`, `MigrationProgress` |
| migration file catalogue | `MigrationFiles` |
| saved-plan policy: module tree walks, address rendering, bucket correlation, verdict | `PolicyPlan`, `PolicyResources`, `PolicyImages`, `PolicyBlocks`, `PolicyTargets`, `PolicyRules`, `PolicyEvaluate`, `PolicyRequirements`, `PolicyFields`, `PolicyVerdict`, `PolicyOrder`, `PolicyRearranged`, `PolicyReport`, `PolicyWitnesses` |
| splitter for concatenated JSON objects | `JsonStream`, `JsonStreamProofs` |
| locale switching | `Locale` |
| secret references as paths, read-or-create batches, wiped buffers | `SecretPaths`, `SecretStore` |
| connection limiter, readiness monitor | `ConnectionLimit`, `Readiness` |
| clock skew check | `ClockSkew` |
| configuration guards and dependency composition | `Bootstrap` |
| strings and carriers used by several parts | `Text`, `Options` |

## How the outside is modelled

- Databases, networks, file systems and clocks are parameters: what each statement or call comes back with,
  and whether a statement whose answer is lost took effect.
- Goose's Up applies one migration at a time; a migration commits together with its version; pending means the
  catalogue versions above the current one. The migrator's one pooled session lives as long as its run, and
  losing it is a crash that frees the lock.
- A Go map is iterated in an arbitrary order, chosen anew at each loop: `:|` in the methods, a ghost order or a
  multiset in the specifications.
- Regular expressions are predicates on strings where their language matters (references, file names, image
  digests) and given outcomes where it does not (configuration identifiers).
- Objects that hold memory or connections are counted in a ledger outside the code that opens them: the buffers a
  secret store issues, the pools ever opened.
- Decoded JSON and TOML values are datatypes. Constants are the source's own.

## What the proofs found

- **A migration can wedge for good.** A run that ends after its last migration and before its clean row leaves
  goose at the last version with the row not clean there. Later runs find nothing pending and refuse, so no
  number of further migrators with that catalogue ever repairs the row: `MigrationProgress.WedgeIsReachable`,
  `WedgeIsForever`. A run without faults recovers exactly when a migration is still pending or the row is already
  clean at the last version: `FaultFreeRun`. Safety is not affected: `WedgedIsRefused`.
- **The row is not always dirty after a failed migration**, although the error says so. It is exactly if the row
  was there when the run began, which is what the run tests for: `MigrationProgress.FailureIsDirtyIff`. On a new
  database the first migration itself inserts a clean row at version 0, and a run that fails at the second leaves
  that: `FailureLeavesCleanRow`. Readers are safe because their minimum is positive.
- **A policy answer can depend on map order** when a module call's name contains a dot, so that two module paths
  render one address: `PolicyWitnesses.TwoAnswers` is a plan with two answers, one of which passes it. A plan has one
  answer exactly when no bucket that needs a block to point to it is guarded after one order of the calls and not
  after another: `PolicyOrder.OneAnswerIff`; where one address alone has several targets, this is read off the
  configuration's module paths: `OneAnswerUnlessTorn`. The walk's own map is independent of the order exactly when no
  address has two possible targets (`PolicyBlocks.OrderMattersIff`), which dot-free names, as OpenTofu's identifiers
  are, guarantee (`DotFreeDecides`); then the answer is unique (`PolicyEvaluate.EvaluateIsDeterministic`).
- **A policy verdict can depend on resource order** when buckets share a known name:
  `PolicyWitnesses.SharedNameShowsOrder`. `PolicyOrder.OrderMatters` says exactly when, for plans with distinct
  bucket addresses. With distinct known names it never does: `PolicyVerdict.VerdictIgnoresOrder`. The whole answer is
  then the same for every order exactly when the blocks that name a bucket no block points to are all complete or all
  incomplete: `PolicyRearranged.AnswerIgnoresOrderIff`.
- **Readiness can come back during a shutdown the server itself caused.** If nobody has cancelled the monitor's
  context by the final false, it lives on until the serving goroutine returns, and the monitor may store true any
  number of times: `ReadinessProtocol.ErrorPathIsUnbounded`. On either path, at most one store follows the final
  false in every continuation exactly when the context was cancelled before it: `FinalFalseIff`.
- **A database far enough in the past is accepted by the skew check**, because the least 64-bit duration has no
  positive counterpart. Those are the only ones accepted beyond the bound: `ClockSkew.FarPastIsAccepted`.

## Model

| member | source | states |
|---|---|---|
| `SchemaState.CheckSupportedIff` | internal/platform/database/database.go:168-183 | a reader accepts exactly a clean row inside its window, found by a read after a probe that saw the table; a vanished table, a missing row, a dirty row and both sides of the window are refused |
| `SchemaState.CheckRefusedIff` | internal/platform/database/database.go:168-224 | each of the four refusals is characterised as exactly: a schema is behind where table or row is missing or the version is too low, ahead where it is too high, dirty, or unavailable where the table vanishes between the two reads |
| `Catalogues.PendingIsFilter` | internal/migration/migration.go:56-60 | the pending migrations are exactly those above the current version |
| `Catalogues.PendingAdvances` | internal/migration/migration.go:66 | applying the first pending migration leaves the others pending, so Up proceeds one version at a time |
| `Catalogues.PendingEmptyIff` | internal/migration/migration.go:56-60 | nothing is pending exactly when the current version has reached the catalogue's last |
| `MigrationWorld.ApplyKeeps` | internal/platform/database/migrations/20260801000000_platform_init.sql:3-11 | a migration, including the one that creates the table and its row, keeps what the readers and the running migrator rely on |
| `MigrationWorld.ExecuteKeeps` | internal/migration/migration.go:26-85 | every statement of a run keeps the shared facts and hands the next statement what it needs to know |
| `MigrationWorld.StepKeeps` | internal/migration/migration.go:26-85 | one statement of one run, a new session, or the end of a session at any point keeps the invariant of the whole world |
| `MigrationWorld.RunKeeps` | internal/migration/migration.go:26-85 | the invariant holds in every reachable state of any number of concurrent, crashing migrators with any catalogues and windows |
| `MigrationWorld.CheckIsSafe` | internal/platform/database/database.go:168-224 | a reader whose two statements fall anywhere in any run accepts only a row that is clean at goose's version, inside its window, while no migrator is between its first migration and its clean row |
| `MigrationWorld.MutualExclusion` | internal/migration/migration.go:30-36 | at most one run is past the lock |
| `MigrationWorld.LockedOut` | internal/migration/migration.go:30-33 | a run that meets another session's lock leaves the server as it is |
| `MigrationWorld.LockDiesWithSession` | internal/migration/migration.go:27-36 | in every interleaving the lock's holder has a live session, and the end of that session frees the lock and changes nothing else |
| `MigrationWorld.OnlyTheHolderWrites` | internal/migration/migration.go:60-84 | only the lock holder changes the row or goose's version, only in marking, applying and finalising, and goose's version never decreases |
| `MigrationWorld.FinalisedVersions` | internal/migration/migration.go:69-84 | successive finalised versions strictly increase, each is inside the writer's window and last in its catalogue, none is above goose's version, and the row carries the last of them |
| `MigrationRun.AdvanceDescends` | internal/migration/migration.go:26-85 | every statement brings a run nearer its end, so every run ends |
| `MigrationRun.CompleteIsARun` | internal/migration/migration.go:26-85 | a run alone, with any pattern of lost answers, is a legal sequence of events of the shared world |
| `MigrationWorld.BecomesQuiet` | internal/migration/migration.go:30-62 | a run that does not get the lock, or finds nothing pending, is quiet from then on |
| `MigrationWorld.QuietRunWritesNothing` | internal/migration/migration.go:60-62 | in every interleaving a quiet run never again writes the row or goose's version, whatever other runs do meanwhile |
| `MigrationRun.RefusedOrIdleWritesNothing` | internal/migration/migration.go:60-62 | a run refused at the lock, or with nothing pending, changes neither the row nor goose's version, whatever fails |
| `MigrationRun.SuccessMeansClean` | internal/migration/migration.go:26-85 | for every binary, server and pattern of lost answers: success means a clean row at goose's version, inside the window, with everything in the catalogue applied |
| `MigrationRun.SuccessIsFaultFree` | internal/migration/migration.go:26-85 | a run that succeeds with faults (which then are at its unlock) succeeds without them and leaves the same row and version |
| `MigrationRun.RefusalTells` | internal/migration/migration.go:26-119 | each error tells how far the run came and what it left: nothing touched, only the mark made, all applied but outside the window, or all applied without its clean row |
| `Migrator.MarkStateDirtyIfPresent` | internal/migration/migration.go:87-104 | probe, then mark: exactly an absent table, or a row whose mark is answered, lets the run go on, and then the row is dirty at its version; an update of no row is an error |
| `Migrator.Up` | internal/migration/migration.go:66-68 | applies pending migrations one by one until one fails or, on success, none is pending |
| `Migrator.ValidateCurrentState` | internal/migration/migration.go:106-119 | a run with nothing pending succeeds exactly on a clean row at the current version inside the window; a row there that is dirty or outside the window is unsupported, anything else a mismatch |
| `Migrator.FinalizeVersion` | internal/migration/migration.go:69-84 | succeeds exactly if the version read back is inside the window, both answers arrive and the row is there; then the row is clean at that version |
| `Migrator.RunFS` | internal/migration/migration.go:26-85 | the imperative run, with its early returns and deferred unlock, takes exactly the steps of the protocol, for every pattern of lost answers; if it answers success, the row is clean at goose's version, inside the window, and nothing is pending |
| `MigrationProgress.FaultFreeRun` | internal/migration/migration.go:52-119 | for one catalogue that starts with the init migration and ends in the window, from any reachable state with the lock free: a fault-free run succeeds exactly when a migration is pending or the row is already clean at the last version, and then leaves that clean row; otherwise it refuses and changes nothing |
| `MigrationProgress.WedgedIsRefused` | internal/platform/database/database.go:213-224 | no reader accepts a wedged schema |
| `MigrationProgress.WedgeIsForever` | internal/migration/migration.go:60-62 | once everything is applied without a clean row and nobody is about to write one, no run of migrators with this catalogue changes the row or goose's version again |
| `MigrationProgress.WedgeIsReachable` | internal/migration/migration.go:66-84 | every such catalogue has a run into that state |
| `MigrationProgress.FailureIsDirtyIff` | internal/migration/migration.go:66-104 | for every binary, server and pattern of lost answers: a run that reports a failed migration leaves the row dirty exactly if the row was there when it began |
| `MigrationProgress.FailureLeavesCleanRow` | internal/migration/migration.go:66-68 | on a new database a run that fails at its second migration reports the failure and leaves a clean row at version 0 |
| `MigrationFiles.MergeFile` | internal/migration/catalogue.go:36-57 | one file is merged exactly if its name matches, its version is new and it can be read; else the refusal is the first test that fails, and it is never the shared-name test |
| `MigrationFiles.MatchesExact` | internal/migration/catalogue.go:12 | a name is accepted exactly if it spells fourteen digits, a bar, a non-empty owner of lower-case letters and digits, a bar, a non-empty title of those and bars, and ".sql" |
| `MigrationFiles.VersionExact` | internal/migration/catalogue.go:41-45 | and its version is then those fourteen digits |
| `MigrationFiles.BlameTells` | internal/migration/catalogue.go:33-54 | which test each refusal is about, later tests being reached only past the earlier ones |
| `MigrationFiles.TakenNameTakenVersion` | internal/migration/catalogue.go:45-50 | a taken name implies a taken version, so the name-ownership branch cannot be reached |
| `MigrationFiles.MergeSource` | internal/migration/catalogue.go:31-59 | one owner's directory: all its files are merged, or the refusal is about the first entry that does not fit |
| `MigrationFiles.AllFitIff` | internal/migration/catalogue.go:31-60 | the running tests on files amount to: every name matches, every file is readable, and versions are pairwise distinct across owners |
| `MigrationFiles.CleanSourcesIff` | internal/migration/catalogue.go:31-60 | the same for the owners' directories themselves, entry by entry |
| `MigrationFiles.RefusedIff` | internal/migration/catalogue.go:33-53 | some refusal fits exactly the sources that cannot be merged, and no refusal speaks of a shared name |
| `MigrationFiles.MergeSources` | internal/migration/catalogue.go:27-61 | succeeds exactly if every tree can be listed, every file is well named and readable and no two files share a version; the result holds every file of every source with its own bytes, and nothing else |
| `MigrationFiles.DigitsInOrder` | internal/migration/catalogue.go:12 | digit strings of one length compare as their numbers do |
| `MigrationFiles.SortedNamesAreACatalogue` | internal/migration/catalogue.go:12 | merged files with positive versions, listed by name, are a catalogue as the migrators need it |
| `MigrationFiles.ShippedCatalogue` | internal/platform/database/database.go:22-23 | the file the program ships can be merged and is a catalogue of the one version its window is compiled with |
| `MigrationFiles.NamesInVersionOrder` | internal/migration/catalogue.go:12 | files with different versions sort by name exactly as by version number |
| `ViolationOrder.SortedIsUnique` | internal/tofupolicy/policy.go:107-112 | a multiset of violations has only one list sorted by address and message |
| `ViolationOrder.SortedMeans` | internal/tofupolicy/policy.go:107-112 | a sorted list has its addresses in string order, and the messages of one address in string order |
| `StringOrder.LessExact` | internal/tofupolicy/policy.go:107-112 | a string comes first exactly if, at the first place they differ, it ends or has the smaller character |
| `ViolationOrder.Sort` | internal/tofupolicy/policy.go:107-112 | the final sort returns a sorted permutation |
| `PolicyImages.WalkConfigurationImages` | internal/tofupolicy/policy.go:276-298 | the recursive walk, in any order of calls, adds exactly the image proofs of the module tree |
| `PolicyImages.CarriedStep` | internal/tofupolicy/policy.go:286-297 | going one call in changes where the walk starts, not which values a path carries |
| `PolicyImages.ImageProofsExact` | internal/tofupolicy/policy.go:266-308 | for trees of any depth: an address is proven exactly when it renders a module path and a task there that reads `var.image_uri`, and the path carries a digest-pinned image to it, as a constant or through references back to the root variable |
| `PolicyFields.ImageExact` | internal/tofupolicy/policy.go:14 | a pinned image is a name without blanks or "@", "@sha256:", and 64 lower-case hexadecimal digits |
| `PolicyFields.TaskExact` | internal/tofupolicy/policy.go:276-285 | a task is proven exactly if the image is pinned and its container definitions refer to `var.image_uri` |
| `PolicyFields.ImageIsCarried` | internal/tofupolicy/policy.go:266-308 | in a tree that hands `var.image_uri` to a called module, the task there is proven exactly if the root variable is a pinned image |
| `PolicyBlocks.WalkConfigurationS3Blocks` | internal/tofupolicy/policy.go:322-337 | the recursive walk ends where some order of visiting the calls ends, keys overwritten in that order |
| `PolicyFields.BlockBucketExact` | internal/tofupolicy/policy.go:316-345 | a block stands for the first of its bucket references that begins with "aws_s3_bucket." and a name |
| `PolicyBlocks.WalkIsPossible` | internal/tofupolicy/policy.go:322-337 | whatever the order, each key ends with one of its possible targets, or is left alone if it has none |
| `PolicyBlocks.PossibleIsReached` | internal/tofupolicy/policy.go:334-336 | each possible target is where some order ends |
| `PolicyBlocks.OrderMattersIff` | internal/tofupolicy/policy.go:334-336 | the walk's result is independent of map order exactly when no key has two possible targets |
| `PolicyBlocks.SiblingsApart` | internal/tofupolicy/policy.go:335 | two dot-free call names that head one address are one name |
| `PolicyBlocks.DotFreeDecides` | internal/tofupolicy/policy.go:322-345 | with dot-free call names, at any depth, every key has at most one target |
| `PolicyTargets.PossibleExact` | internal/tofupolicy/policy.go:316-345 | for trees of any depth: a block address can end with a target exactly when a module path and the last matching block of that module render both, with no such block deeper |
| `PolicyTargets.TargetsExact` | internal/tofupolicy/policy.go:316-337 | where an address has one target the walk's map holds exactly what the configuration renders for it, whatever the order |
| `PolicyTotals.TotalRemove` | internal/tofupolicy/policy.go:121-139 | what a map's entries contribute in total can be taken apart at any key first |
| `PolicyTotals.Gather` | internal/tofupolicy/policy.go:244-253 | appending in any order of keys gives the total of the map's contributions |
| `PolicyRules.AccountViolations` | internal/tofupolicy/policy.go:116-141 | the account loop reports the provider map's total, in any order |
| `PolicyRules.AccountProvenIff` | internal/tofupolicy/policy.go:116-141 | nothing is reported exactly when there is a default AWS provider and every AWS provider allows exactly the expected account |
| `PolicyFields.AccountExact` | internal/tofupolicy/policy.go:116-141 | the account is proven exactly if there is a provider "aws" and it and every "aws." alias have a well-formed allow-list of exactly the expected account |
| `PolicyReport.AccountVerdict` | internal/tofupolicy/policy.go:116-141 | each AWS provider without exactly that list is reported once, with what is wrong with it, and no other provider is; without a default provider only that is reported |
| `PolicyRules.Message` | internal/tofupolicy/policy.go:176-251 | no rule but the one for unguarded buckets speaks in that rule's words |
| `PolicyRequirements.OwnExact` | internal/tofupolicy/policy.go:175-241 | a resource is reported for exactly the requirements of its kind that it does not meet, once each; the requirements are stated over the plan, images by module paths |
| `PolicyRequirements.OwnEmptyIff` | internal/tofupolicy/policy.go:175-241 | nothing is said about a resource exactly when it meets every requirement |
| `PolicyFields.CompliantExact` | internal/tofupolicy/policy.go:175-241 | for every kind of resource the requirements are spelled out over the fields of the plan, independently of the predicates that decide them |
| `PolicyReport.RequirementVerdict` | internal/tofupolicy/policy.go:84-241 | in any answer, each requirement is reported at each address exactly as often as a resource planned there fails it |
| `PolicyRules.ResourceViolations` | internal/tofupolicy/policy.go:167-255 | the loop over resources and the two loops over bucket maps report the total, in any map order |
| `PolicyEvaluate.ListResources` | internal/tofupolicy/policy.go:94-105 | resources are those written at every place of the planned tree, in order, each with what the last change at its address leaves unknown, or, if there are none, what the changes leave behind |
| `PolicyResources.FlattenExact` | internal/tofupolicy/policy.go:143-149 | for trees of any depth: the flattened list is the one list that holds the resource at every place (a path of child numbers and a position), once each, a module's own before its children's |
| `PolicyResources.ResourcesExact` | internal/tofupolicy/policy.go:94-165 | the rules see the planned resources with their unknown values, or the changes that leave something behind, in order |
| `PolicyEvaluate.Judge` | internal/tofupolicy/policy.go:93-113 | a sorted list of exactly the violations some order of the calls leads to |
| `PolicyEvaluate.Evaluate` | internal/tofupolicy/policy.go:84-114 | exactly what is not twelve digits is refused as an account number, then exactly an undecodable plan; any other input is answered |
| `PolicyEvaluate.OneTargetDecides` | internal/tofupolicy/policy.go:106-112 | two answers to one plan in which every block address has at most one target are the same list |
| `PolicyEvaluate.EvaluateIsDeterministic` | internal/tofupolicy/policy.go:106-112 | two answers to one plan with dot-free call names are the same list, whatever the map orders |
| `PolicyVerdict.NamedCount` | internal/tofupolicy/policy.go:244-248 | the loop over names reports a bucket once or not at all, and exactly when it should |
| `PolicyVerdict.AddressCount` | internal/tofupolicy/policy.go:249-253 | the loop over addresses reports a bucket without a known name once or not at all, and exactly when it should |
| `PolicyVerdict.BucketVerdict` | internal/tofupolicy/policy.go:208-253 | in any answer to a plan with distinct buckets and one target for each block address, each bucket is reported exactly once or not at all; not at all exactly when the last block naming it is complete or a complete block points to it in the configuration |
| `PolicyVerdict.PassesIff` | internal/tofupolicy/policy.go:84-255 | with one target for each block address, an answer is empty exactly when the plan meets the policy: account, every requirement, and every bucket pointed to through a module path or claimed as the last of a name a complete block carries |
| `PolicyVerdict.VerdictIgnoresOrder` | internal/tofupolicy/policy.go:167-255 | any two answers to two plans with the same set of resources, distinct buckets and one target for each block address are both empty or both not |
| `PolicyVerdict.VerdictIgnoresNesting` | internal/tofupolicy/policy.go:143-149 | so are any two answers when resources are permuted or moved between child modules of any depth, every resource being written as often in both trees |
| `PolicyVerdict.DotFreeVerdict` | internal/tofupolicy/policy.go:84-255 | both of these hold of every plan with dot-free call names |
| `PolicyOrder.OrderMatters` | internal/tofupolicy/policy.go:208-253 | for distinct bucket addresses and one target for each block address, another order of the resources changes the verdict exactly when all else is as the policy asks, every bucket no block points to is claimed by a name of its own among those, and one of them shares it with a bucket some block points to |
| `PolicyOrder.OneAnswerIff` | internal/tofupolicy/policy.go:244-253 | a plan has one answer exactly when no bucket that needs it is pointed to after one order of the calls and not after another |
| `PolicyOrder.OneAnswerUnlessTorn` | internal/tofupolicy/policy.go:316-345 | if complete blocks at one address at most have several targets, a plan has one answer exactly when no bucket that needs it is one of several targets there and pointed to from nowhere else; targets are those that module paths render |
| `PolicyRearranged.AnswerIgnoresOrderIff` | internal/tofupolicy/policy.go:84-255 | with distinct buckets and one target for each block address, the whole sorted answer is the same for every order of the resources exactly when the blocks that name a bucket no block points to are all complete or all incomplete |
| `PolicyRearranged.NestingRearranges` | internal/tofupolicy/policy.go:94-105 | moving resources between child modules of any depth only reorders what the rules see |
| `PolicyRearranged.AnswerIgnoresNesting` | internal/tofupolicy/policy.go:143-149 | so the whole answer survives such a move when those blocks agree |
| `PolicyWitnesses.SharedNameShowsOrder` | internal/tofupolicy/policy.go:208-212 | plans with two buckets of one known name whose verdict another order of the resources changes |
| `PolicyWitnesses.TwoAnswers` | internal/tofupolicy/policy.go:334-336 | a plan, with the calls "a.module.b" and "a" over "b", that has an empty and a non-empty answer |
| `JsonStream.Candidate` | scripts/security/govulncheck.sh:23-45 | the inner loop finds the brace that closes the candidate, or reads to the end |
| `JsonStream.JsonObjects` | scripts/security/govulncheck.sh:18-47 | on every input the scanner ends; it yields the candidates in order up to the first the parser refuses, and throws exactly if there is one |
| `JsonStream.AcceptedExact` | scripts/security/govulncheck.sh:41 | what is yielded is a beginning of the candidates, all taken by the parser, and the next one, if any, is refused |
| `JsonStream.SpaceExact` | scripts/security/govulncheck.sh:21 | exactly the white space and line terminators of sections 12.2 and 12.3 of ECMA-262 are skipped, the white space of JSON among them |
| `JsonStreamProofs.ValueLeads` | scripts/security/govulncheck.sh:27-44 | any JSON value in any legal spelling (RFC 8259 sections 2 to 7) inside an open object brings the scanner back to its mode |
| `JsonStreamProofs.ObjectEnds` | scripts/security/govulncheck.sh:37-43 | an object's text ends exactly at its last brace, whatever follows |
| `JsonStreamProofs.CutNeverEnds` | scripts/security/govulncheck.sh:27-45 | an object cut short anywhere never closes |
| `JsonStreamProofs.StreamIsSplit` | scripts/security/govulncheck.sh:18-47 | any list of objects in any spelling with any white space between, and a possibly truncated object behind, is cut into exactly those objects in order and nothing more; with a parser that takes these objects there is no throw |
| `JsonStreamProofs.PiecesTile` | scripts/security/govulncheck.sh:18-47 | on every text the pieces tile it: only white space between them, each closing exactly at its own end, and a rest that never closes |
| `LocaleSwitch.LocaleProvider.SetLocale` | apps/web/src/i18n/locale-provider.tsx:147-163 | a choice is one step of the protocol: a new request number, and either an immediate commit of the active locale or a load |
| `LocaleSwitch.LocaleProvider.OnLoaded` | apps/web/src/i18n/locale-provider.tsx:163-172 | a load that succeeds commits if its request is the latest and changes nothing shown otherwise |
| `LocaleSwitch.LocaleProvider.OnLoadFailed` | apps/web/src/i18n/locale-provider.tsx:173-182 | a load that fails reports the error if its request is the latest and changes nothing shown otherwise |
| `LocaleSwitch.PendingAndCookie` | apps/web/src/i18n/locale-provider.tsx:138-185 | in every run a pending locale is shown exactly while the latest request is loading, and it is that request's; a cookie once written is the active locale |
| `LocaleSwitch.StaysAsItBegan` | apps/web/src/i18n/locale-provider.tsx:138-185 | until a load takes effect the locale is the one the page began with, and a cookie is written exactly if that one was chosen again; before any choice the page shows whether it could be loaded |
| `LocaleSwitch.CommitsIncrease` | apps/web/src/i18n/locale-provider.tsx:149-172 | committed request numbers strictly increase |
| `LocaleSwitch.OnlyTheLatestDecides` | apps/web/src/i18n/locale-provider.tsx:163-182 | after the last choice, loads of older requests change nothing, in any order; the latest one's outcome decides locale, cookie and error |
| `LocaleSwitch.LastChoiceDecides` | apps/web/src/i18n/locale-provider.tsx:147-185 | over any whole run: once the last request has settled, the active locale is its locale if it was active or loaded, and otherwise the one active before it |
| `SecretPaths.ParseRefExact` | internal/platform/secret/ref.go:34-47 | accepts exactly 1 to 128 allowed characters, starting with a letter or digit, with non-empty slash-separated segments that are neither "." nor ".." |
| `SecretPaths.RefRoundTrip` | internal/platform/secret/secret.go:66-73 | for a clean absolute root, Rel undoes Join on every reference, and the path is within the root |
| `SecretPaths.DistinctPaths` | internal/platform/secret/secret.go:70 | distinct references give distinct paths |
| `SecretPaths.WithinExact` | internal/platform/secret/secret.go:102-106 | on clean absolute paths `within` says exactly that the root's segments begin the path's |
| `SecretProtocol.CallKeeps` | internal/platform/secret/secret_infisical.go:80-105 | one API call of one run, answered or lost, keeps the run's batch equal to what the store holds, and only adds to the store values of a valid size |
| `SecretProtocol.RunKeeps` | internal/platform/secret/secret_infisical.go:72-107 | in every interleaving of any number of runs, failing at any call, no stored value is lost or changed and nothing empty or oversized is created |
| `SecretProtocol.SuccessfulRunsAgree` | internal/platform/secret/secret_infisical.go:72-107 | a successful run returns exactly its references, of valid sizes, as the store still has them; all successful runs return one value for one reference |
| `SecretBuffers.SecretValue.constructor` | internal/platform/secret/secret.go:21-23 | the secret is a copy in a buffer of its own |
| `SecretBuffers.SecretValue.Bytes` | internal/platform/secret/secret.go:25 | callers get a copy in a buffer of their own |
| `SecretBuffers.ScribbleOnCopy` | internal/platform/secret/secret.go:25 | writing anywhere into such a copy leaves the secret as it was |
| `SecretBuffers.ReadOrCreate` | internal/platform/secret/secret_infisical.go:89-98 | one reference is read, or generated and created when absent and of a valid size; the store and the buffer end as specified for every answer, and no other buffer is issued |
| `SecretBuffers.ResolveOne` | internal/platform/secret/secret_infisical.go:89-104 | the working buffer ends wiped on success and on failure; the secret handed out is a copy that still equals what was read or generated, in a buffer never issued |
| `SecretBuffers.Collect` | internal/platform/secret/secret_infisical.go:81-106 | the loop, with its tests of format and duplicates: every buffer the store issued meanwhile ends wiped, on success one for each reference, and the secrets handed out are in other buffers, one each |
| `SecretBuffers.ResolveOrCreateBatch` | internal/platform/secret/secret_infisical.go:72-107 | succeeds exactly if login answers, the references are distinct and pass ParseRef, and each is found, or generated and created where absent, with a value of 1 to 65536 bytes; it then returns exactly those values in fresh copies; an empty batch or a failed login changes nothing; every buffer issued on the way ends wiped |
| `SecretBuffers.FetchIsATurn` | internal/platform/secret/secret_infisical.go:89-98 | the imperative loop makes exactly the protocol's calls for one reference |
| `SecretBuffers.SuccessIff` | internal/platform/secret/secret_infisical.go:72-107 | the same of the store's states from reference to reference: a batch succeeds exactly along a smooth sequence of them, with exactly its values |
| `SecretBuffers.BatchIsFaithful` | internal/platform/secret/secret_infisical.go:72-107 | whatever other runs add between the calls and whichever calls fail, a batch that succeeds holds exactly its references as the store has them, ends as a successful run of the protocol, and the store keeps all it had |
| `ConnectionLimit.StepKeeps` | cmd/api/serve.go:317-337 | each channel or `sync.Once` operation keeps the count of tokens and the state of every connection right |
| `ConnectionLimit.OpenWithinLimit` | cmd/api/serve.go:308-337 | in every interleaving the tokens taken are those of Accepts in progress and of unreleased connections, never more than the capacity, and no more connections are open than that |
| `ConnectionLimit.ReleasedOnce` | cmd/api/serve.go:327-337 | a connection gives its token back at most once, exactly once when a Close of it has returned, and not while open |
| `ConnectionLimit.ReleaseNeverWaits` | cmd/api/serve.go:319-324 | giving a token back, after a failed Accept or inside Close, never waits |
| `ConnectionLimit.CloseGoesOn` | cmd/api/serve.go:333-337 | of several Closes of one connection none is ever stuck: it can go on, or the one it waits for can |
| `LimitedListener.LimitListener.Accept` | cmd/api/serve.go:317-325 | a whole Accept performs the protocol's events and hands out a connection tied to them, or gives its token back |
| `LimitedListener.LimitedConn.Close` | cmd/api/serve.go:333-337 | a whole Close performs the protocol's events; the token goes back on the first call only, and is there to go back |
| `ReadinessProtocol.LastPingDecides` | cmd/api/serve.go:225-296 | in every interleaving, until the serving goroutine stores false the flag is the last Ping the monitor recorded, true before the first; after that false until the monitor records another |
| `ReadinessProtocol.OneLateStore` | cmd/api/serve.go:265-294 | under an ended context the monitor stores at most once more; on the cancellation path the context has ended, so at most one store follows the final false (for the exact condition on both paths see the next row) |
| `ReadinessProtocol.FinalFalseIff` | cmd/api/serve.go:257-294 | at any point where the serving goroutine is about to store the final false, on either path: at most one store follows in every continuation exactly when the context has been cancelled by then |
| `ReadinessProtocol.ErrorPathIsUnbounded` | cmd/api/serve.go:257-264 | on the path where the server fails and nobody cancels, for every n there is a run in which the monitor stores true n times after the final false |
| `ReadinessMonitor.MonitorDependencies` | cmd/api/serve.go:274-296 | the loop leaves the flag at the last recorded outcome and stops exactly when its context has ended |
| `ReadinessMonitor.LoopIsARun` | cmd/api/serve.go:274-296 | the loop's trips are legal events of the protocol that store the recorded outcomes in order |
| `ClockSkew.CheckClock` | internal/platform/database/database.go:195-211 | accepts exactly when the sample's distance from the midpoint is within the bound, for all 64-bit durations, including the one whose negation is itself |
| `ClockSkew.MidpointIsClose` | internal/platform/clock/clock.go:26-28 | truncation to microseconds moves the midpoint by less than a microsecond beyond half the round trip |
| `ClockSkew.SkewIsBounded` | internal/platform/database/database.go:195-211 | an accepted clock is off by at most the maximum, half the round trip and under a microsecond; one off by less than the maximum by that much is accepted |
| `ClockSkew.BoundsAreReached` | internal/platform/database/database.go:195-211 | none of the four bounds can be tightened, for any maximum and any round trip |
| `ClockSkew.FarPastIsAccepted` | internal/platform/database/database.go:203-209 | beyond the bound the check accepts exactly the databases whose distance into the past reaches the least duration |
| `BootstrapConfig.BadSwitch` | internal/bootstrap/config.go:258-265 | no switch is reported exactly when each is set and says whether its section is there |
| `BootstrapConfig.ParseCapabilities` | internal/bootstrap/config.go:244-280 | accepted capabilities are on exactly where their section is there, so no absent section is read |
| `BootstrapConfig.ParseIff` | internal/bootstrap/config.go:156-242 | the chain of guards accepts exactly the files that meet every rule, with no order among them |
| `BootstrapConfig.ParseIsSound` | internal/bootstrap/config.go:182-230 | an accepted configuration has exactly the sections it asks for, and secrets wherever Postgres or local keys need them |
| `BootstrapConfig.ParseTakesTheFile` | internal/bootstrap/config.go:182-242 | an accepted configuration holds the file's own values: environment, mode, role, switches, both durations, the database section, and for each section the provider its deployment mode calls for |
| `BootstrapConfig.RefusedForIff` | internal/bootstrap/config.go:156-280 | a file is refused for a rule exactly if it breaks that rule and none tested before it |
| `BootstrapBuild.OpenDatabase` | internal/platform/database/database.go:41-67 | reports the first failure; a pool is opened exactly when nothing before it fails, and one that is opened and then refused is closed once |
| `BootstrapBuild.BuildCrypto` | internal/bootstrap/dependencies.go:167-188 | local keys come from a secret source that is there; the first failure is reported |
| `BootstrapBuild.Check` | internal/bootstrap/dependencies.go:94-117 | checks exactly the dependencies that are there, in order, up to the first failure |
| `BootstrapBuild.Finish` | internal/bootstrap/dependencies.go:60-91 | once the database is there or not asked for: every later failure closes the pool, once, and is the one reported |
| `BootstrapBuild.Build` | internal/bootstrap/dependencies.go:35-92 | on any configuration `Parse` accepts and any pattern of failures: everything asked for is there, open and checked, and its pool is all that was opened; or the first failure is reported and every pool opened during the call is closed once; no absent section or source is used |
| `BootstrapBuild.FailureIff` | internal/bootstrap/dependencies.go:35-117 | the failure reported is that of the first act that is asked for and fails; there is none exactly if every act asked for succeeds |
| `BootstrapBuild.Preflight` | internal/bootstrap/dependencies.go:147-154 | whatever happens every pool opened during the call ends closed, once |
| `BootstrapBuild.BootstrapAndServe` | cmd/api/serve.go:207-219 | the dependencies are open while serving; whatever happens every pool opened during the call ends closed, once |
| `BootstrapBuild.GuardsAreExact` | internal/bootstrap/config.go:189-194 | a build would call an absent secret source exactly when one of the two guards about secrets is broken |

## Left out

- PolicyBlocks.OrderMattersIff: is about the map the walk fills; which answers differ is `PolicyOrder.OneAnswerIff`.
- SQL, network, file system, TOML and JSON decoding, AWS, Infisical and OpenFeature clients: parameters, as said above.
- Goose: down migrations, its own tables, and its check for missing older migrations, which a failing Apply covers.
- Silent reconnection of the migrator's pooled session, which would lose the lock without ending the run.
- The reader's session tests (time zone, user, role, statement timeout, TLS) at internal/platform/database/database.go:146-166: one branch each.
- MigrationProgress.FaultFreeRun: speaks of a free lock; a run that meets a lock is refused, which `LockedOut` covers.
- Resource types are constructors of a datatype, named in its comments; a number is kept as the text it renders to.
- Plan documents that differ in JSON spelling only: the model starts from the decoded plan.
- The splitter's UTF-16 code units are characters here; the scanner only compares them with ASCII and white space.
- The locale bundle cache, the URL parameter, the formatting locale and React rendering; a bundle is taken to be of the locale it was loaded for.
- A commit and its layout effect are one step, as React runs them before the next event.
- Agreement between the two locale negotiators of the web application, which choose differently for unlisted regions.
- SecretBuffers.ResolveOrCreateBatch: the test for a missing generator is left out, and an empty login token counts as a failed login.
- Secret sources that only read (`ResolveBatch` of files and of Infisical): the same loop without a create. File permissions, symbolic links and trailing newlines are file system matters.
- SecretPaths.RefRoundTrip: paths are slash-separated, as on the systems the programs run on.
- ConnectionLimit.OpenWithinLimit: a connection that is never closed keeps its token, as in the source; no fairness among waiting Accepts is modelled.
- Readiness before the listener is up and the two ways of starting TLS: the protocol starts once both goroutines run.
- ClockSkew.SkewIsBounded: needs a local clock that does not step back between the readings.
- BootstrapConfig.ParseIff: a section's own field rules come as one given outcome beside its provider, and identifiers as given matches.
- BootstrapBuild.Build: the feature-flag probe and the clock fields of the result, which cannot fail; Ping, which repeats Check with other calls.
- Crypto adapters, storage probes, message keys, health handlers, CORS, proxy headers, generated code, OpenTofu files and the other scripts.
