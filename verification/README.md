# Verified models of magnetar

Dafny models of the parts of the magnetar repository (a Pulsar client in Rust and its Python tooling) whose
behaviour is hard to see from the code, with proofs of what they promise. Nothing here runs the original programs.

| modules | what they model |
|---|---|
| `Calendar`, `Timestamp` | the build timestamp of `magnetarctl`: days to civil dates, printing, and order |
| `RustLexer`, `XtaskLexer` | the masking scanner over Rust sources in the measurement harness, and the xtask scanner it is documented to follow |
| `Snapshot` | the worklist walk of a source tree, subtree digests, and the closing recheck |
| `Reports`, `Reconcile`, `CiWorkers`, `FixtureEvents`, `Totals` | sharded reports reconciled with their plan, CI workers, fixture containers attributed to observations |
| `AdminPath`, `AdminNames` | admin names, percent-encoding and URL paths |
| `Deadlines`, `Athenz`, `OAuth2` | the two credential caches under concurrent refreshes |
| `SaslHandshake` | the SASL provider over the scripted GSSAPI client |
| `MemoryLimit` | the client-wide publish memory budget as interleaved atomic steps |
| `Sequences`, `Text`, `Abbreviations`, `Restoring`, `Sentences`, `Prose`, `AbbreviationTable`, `MarkdownLines`, `MarkdownPatterns`, `Markdown`, `MarkdownGrammar`, `MarkdownWords`, `MarkdownScanner`, `MarkdownText` | the semantic line breaks of Markdown files (`Sequences` serves the other modules too) |

`dafny verify dfyconfig.toml` checks everything.

How things are represented: integers are unbounded, and `Calendar.NoStepOverflows` shows that the machine
widths of the build script are never left; instants and durations are nanoseconds with an explicit latest
instant; Rust strings are byte strings; a Python exception is a `None` or an `Err`; SHA-256 is an arbitrary
function of what is hashed, and injective only where a contract says so; the regular expression classes `\w` and
`\d` are arbitrary predicates (`\d` apart from whitespace, bullets and item punctuation where the line patterns need it); the replies of an identity provider are arguments of a step.

## What turned out not to hold

- *The words of a NUL-free Markdown paragraph are kept.* The script hides abbreviations behind numbered
  placeholders and finds a placeholder again by its text, so `ABBR000` written between two abbreviations is
  taken for one. `AbbreviationTable.WordsAreLost` gives an input that loses words in whatever order the script
  sorts its table, and `Sentences.SentencesKeepWords` says exactly which texts keep them.
- *At most ⌊T/L⌋ + 1 OAuth2 exchanges in a span T.* With the one-hour overflow fallback the bound needs L plus
  the leeway to fit into that hour: `OAuth2.WhenFetchesAreRare` is the equivalence.
- *Every seed is reported once when the CI worker check passes.* A campaign with no seed worker passes with no
  seed reported (`CiWorkers.NoSeedWorkerPasses`); `CiWorkers.ReportedExactlyOnce` splits on the number of seed
  workers, which the command line keeps between 1 and 64.
- *The closing union check of a reconciliation cannot fail.* It fails exactly for a sound plan with no shard
  and at least one family (`Reconcile.ReconcileSide`); `Reconcile.NoShardUnion` is such a plan. Planning refuses
  fewer than one shard (`scripts/performance.py`, line 676), so no plan the harness writes is one.
- *A role token is refreshed the margin before it expires*, says the documentation of the Athenz provider
  (`crates/magnetar-auth-athenz/src/lib.rs`, lines 287 to 306). A token that lives shorter than the margin is kept
  to its very end, and one whose lifetime overflows the clock for an hour. `Athenz.FreshTokenHasMargin` says when
  the margin is kept, over every interleaving.
- *A drained SASL transcript reports completion*, says the documentation of the scripted client
  (`crates/magnetar-auth-sasl/src/kerberos.rs`, lines 194 to 199). The code reports an error and stays
  incomplete; the model follows the code (`SaslHandshake.AfterExhaustion`, and `SaslHandshake.DrainedIsNotComplete`
  for a transcript of one row). A drained client is complete exactly when the last row of its transcript matched
  what it was fed and needed no continuation (`SaslHandshake.WhenDrainedIsComplete`).
- *Every pending caller of the memory budget is parked or has been woken.* A release takes the parked set under
  the lock and calls the wakers afterwards, one by one. In between a caller is neither
  (`MemoryLimit.TakenButNotYetWoken`); `MemoryLimit.NoReleaseIsMissed` says that it is then on the list of that
  release, and `MemoryLimit.ParkedOrWoken` that the claim holds whenever no release is calling wakers.
- *A document of lines that are all copied comes back unchanged.* Line breaks other than newlines are replaced:
  `MarkdownText.CopiedDocument` is the equivalence and `MarkdownText.VerticalTabIsReplaced` two headings that
  change. No text with another break is left alone, copied or not (`MarkdownText.FixedPointHasOnlyNewlines`).
- *`rust_code` masks the regions that `skip_inert_region` of xtask handles*, says its documentation
  (`scripts/performance.py`, line 556). They differ on byte literals, raw strings that begin inside a word, raw C
  strings, odd char literals and regions that never end. `XtaskLexer.SameRegions` says exactly which texts have
  the same regions; `XtaskLexer.ByteStringsDiffer` and `XtaskLexer.ThreeApostrophesDiffer` are two that have not.

## Model

| member | source | states |
|---|---|---|
| `Calendar.FastFormWalksTheCalendar` | crates/magnetarctl/build.rs:94-104 | for every integer day number the era arithmetic moves one day of the Gregorian calendar per step, in both directions from 1970-01-01 |
| `Calendar.CivilFromDaysIsDate` | crates/magnetarctl/build.rs:94-104 | the result is a date of the calendar, and counting its days from 1970 year by year and month by month gives the input back |
| `Calendar.CivilFromDaysInverts` | crates/magnetarctl/build.rs:94-104 | conversely every date is the result of its own day number: a bijection |
| `Calendar.DaysAreOrdered` | crates/magnetarctl/build.rs:94-104 | a later date has a larger day number |
| `Calendar.FieldRanges` | crates/magnetarctl/build.rs:97-103 | the ranges the comments give for doe, yoe, doy, mp and d hold and no unsigned subtraction goes below zero |
| `Calendar.NoStepOverflows` | crates/magnetarctl/build.rs:89-104 | for every day of a 64-bit second count each step stays inside its `i64` or `u32` |
| `Calendar.YearOfEraSplits` | crates/magnetarctl/build.rs:98-100 | the nested divisions give the year that counting centuries, four-year cycles and years gives |
| `Timestamp.RoundTrip` | crates/magnetarctl/build.rs:89-111 | the printed text reads back as exactly the same second when the year has four digits, and does not have the shape of a date-time otherwise |
| `Timestamp.PadNegative` | crates/magnetarctl/build.rs:110-111 | a negative year is printed with its sign in the first of four columns, and in full when it is longer |
| `Timestamp.ParsedTextIsCanonical` | crates/magnetarctl/build.rs:110-111 | of the date-times of section 5.6 of RFC 3339, those with upper-case `T` and `Z`, whole seconds and no leap second are each the print of the second they denote |
| `Timestamp.TextOrderIsTimeOrder` | crates/magnetarctl/build.rs:110-111 | for four-digit years the order of the texts is the order of the instants |
| `Timestamp.FieldsOfSeconds` | crates/magnetarctl/build.rs:90-108 | date and clock fields are in range and denote the second, for negative inputs too |
| `RustLexer.BlockCommentEnd` | scripts/performance.py:566-577 | the depth-counting loop ends where the nested comment grammar ends, or finds no end exactly when the grammar has none |
| `RustLexer.StringLiteralEnd` | scripts/performance.py:586-597 | the escape-skipping loop ends where the recursive string grammar ends |
| `RustLexer.RegionAt` | scripts/performance.py:563-602 | which inert region, if any, begins at a position, and its end or its lack of one |
| `RustLexer.CharEndIsExact` | scripts/performance.py:560-560 | the scanner's char literals are exactly the texts of the pattern's four alternatives, written out: one character, a one-character escape, two hexadecimal digits, or a braced code |
| `RustLexer.Overwrite` | scripts/performance.py:606-606 | the slice of the buffer becomes blanks with its newlines kept, and nothing behind it changes |
| `RustLexer.RustCode` | scripts/performance.py:555-608 | the in-place scanner terminates and refines the recursive lexer, failing exactly when the lexer does |
| `RustLexer.MaskedText` | scripts/performance.py:555-608 | the output has the length of the input; code and newlines are copied; every other character becomes a space |
| `RustLexer.RegionsAreLong` | scripts/performance.py:563-602 | every masked region is at least two characters long |
| `RustLexer.NoCharLiterals` | scripts/performance.py:560-560 | masking never leaves something that reads as a char literal |
| `RustLexer.MaskIsIdempotent` | scripts/performance.py:555-608 | masking a masked text succeeds and changes nothing |
| `XtaskLexer.SkipInertRegion` | xtask/src/main.rs:705-736 | the loops of the other scanner compute the end, if any, of the region that begins at a position |
| `XtaskLexer.SkipStringLiteral` | xtask/src/main.rs:741-751 | the same for strings |
| `XtaskLexer.SkipRawOrByteLiteral` | xtask/src/main.rs:757-790 | the same for raw strings, byte strings and byte characters |
| `XtaskLexer.SkipCharLiteral` | xtask/src/main.rs:795-814 | the same for char literals |
| `XtaskLexer.CommentStopIsExit` | xtask/src/main.rs:714-730 | its depth-counting loop stops where the nested comment grammar ends, or at the end of the text when the grammar has no end |
| `XtaskLexer.RawStopIsFind` | xtask/src/main.rs:772-782 | its search for a quote and hashes stops behind the first closing delimiter |
| `XtaskLexer.SkipsForward` | xtask/src/main.rs:533-537 | a region ends behind its first character, so the guard of the callers against standing still never acts |
| `XtaskLexer.OnePosition` | xtask/src/main.rs:705-736 | at every position the two scanners see the same, up to the end of the region, unless one of five textual patterns begins there; on those, one sees code where the other sees a region, or the script gives up |
| `XtaskLexer.SameRegions` | scripts/performance.py:555-608 | the script masks exactly the regions that xtask steps over if and only if it meets none of those patterns |
| `XtaskLexer.MaskedByXtask` | scripts/performance.py:555-608 | on such texts the script succeeds, and a character of its output is blanked exactly when a region of xtask covers it |
| `XtaskLexer.ByteStringsDiffer` | xtask/src/main.rs:783-784 | a byte string, whose first letter only xtask counts to the region |
| `XtaskLexer.ThreeApostrophesDiffer` | xtask/src/main.rs:810-812 | three apostrophes, a char literal to xtask and code to the script |
| `Snapshot.Visit` | scripts/performance.py:201-211 | one directory listing is recorded and its subdirectories queued, or refused exactly when an entry is a link or not regular |
| `Snapshot.DirectoryInputs` | scripts/performance.py:193-212 | the worklist walk terminates on every finite tree, succeeds exactly on link-free regular trees, and records every path below the root once with its content |
| `Snapshot.WalkComplete` | scripts/performance.py:199-212 | when nothing is pending, no path is missing |
| `Snapshot.RestrictIsFresh` | scripts/performance.py:496-498 | restricting and re-rooting a snapshot is the snapshot of the subtree |
| `Snapshot.SnapshotUnique` | scripts/performance.py:193-212 | a tree has one snapshot, so the restriction equals a fresh walk |
| `Snapshot.CompiledInputDigest` | scripts/performance.py:220-229 | succeeds exactly on readable inputs and gives the digest of what is there |
| `Snapshot.Expand` | scripts/performance.py:489-501 | one dependency expands to every path below it, each with its right digest |
| `Snapshot.MergeNext` | scripts/performance.py:489-505 | one dependency joins the digests of those before it exactly when it is readable and agrees with them on every member they share |
| `Snapshot.CompilerInputs` | scripts/performance.py:484-505 | each dependency read from a tree of its own: the merge fails exactly when one is unreadable or two expansions disagree on a shared member, and otherwise holds every member with the digest it was read with |
| `Snapshot.Recheck` | scripts/performance.py:522-524 | with each path read again from a tree of its own, passes exactly when every recorded digest still holds there |
| `Snapshot.DigestMeansContent` | scripts/performance.py:215-229 | equal content gives equal digests, and conversely when the digest has no collisions |
| `Snapshot.RecheckMeansStood` | scripts/performance.py:522-524 | the recheck asks exactly whether every member is read again with the digest it was read with |
| `Snapshot.StoodMeansSame` | scripts/performance.py:215-229 | which, without collisions, is having the content it was read with |
| `Snapshot.ScenarioInputs` | scripts/performance.py:484-524 | expansion and recheck together succeed exactly when all was readable and stood; a tree that never changes passes; with a collision-free digest a run passes exactly when every member has the content it was read with |
| `Reports.ShardsPartition` | scripts/performance.py:548-552 | serving every shard once assigns every family exactly as often as it is listed |
| `Reports.ReconcilesInCounts` | scripts/performance.py:548-552 | the list comparison passes exactly when the expected items are distinct, each is there once, and nothing else is |
| `Reports.ListsExact` | scripts/performance.py:748-765 | the comparisons of lists hold exactly when the plan's ids are distinct, the shard's executables are under the families and its doctests under the doctests, each once, of no other kind, and every repetition, calibration and doctest was sampled once |
| `Reports.ReportExact` | scripts/performance.py:726-792 | a report passes every check exactly when its lists are right, no execution failed or was collected wrongly, declarations are as planned, and every family with a test that is not ignored ran all of them in its runtime |
| `Reports.CheckReportExact` | scripts/performance.py:748-772 | which reports pass the checks before the families, and which are refused for a failed test |
| `Reports.HonestReportPasses` | scripts/performance.py:726-792 | the report of a shard that did all its work passes, for every plan with distinct ids and known kinds, every shard, 2 to 20 repetitions and whatever tests |
| `Reconcile.UnionReconciles` | scripts/performance.py:748-796 | once every report passes, the closing comparison with the plan cannot fail, for any plan with a shard |
| `Reconcile.EveryFamilyCountedOnce` | scripts/performance.py:778-792 | executed, empty and ignored-only families are all families |
| `Reconcile.CountMetrics` | scripts/performance.py:793-795 | each known metric that an executed family covers directly goes up by one, and no other |
| `Reconcile.CountEntries` | scripts/performance.py:773-795 | accepts exactly the families that pass every check; the counters, those of the metrics included, are totals over them |
| `Reconcile.CountReport` | scripts/performance.py:726-792 | a report is accepted exactly when all its checks hold, and reported as a functional failure exactly when its lists are right and a test failed |
| `Reconcile.CountReports` | scripts/performance.py:725-792 | the same over all reports, with the totals over all entries |
| `Reconcile.ReconcileSide` | scripts/performance.py:714-798 | accepted exactly when the plan is sound and every report is as it should be; expected = inventoried = executed + empty + ignored-only; the closing check fails exactly for no shards and some family, and a functional failure is reported exactly when the first bad report has a failed test |
| `Reconcile.ReconcileReports` | scripts/performance.py:707-803 | the whole reconciliation, for both sides, as one equivalence |
| `Reports.AcceptedFamilyRan` | scripts/performance.py:756-791 | in an accepted report every listed family is a planned executable of the shard with one sample per repetition, on the base side one calibration sample too, each with its work complete in the runtime of the manifest |
| `Reports.AcceptedDoctestRan` | scripts/performance.py:761-789 | every listed doctest is a planned one of the shard and has one sample, complete when it has tests to run |
| `Reconcile.NoShardUnion` | scripts/performance.py:712-796 | a plan with no shard whose closing comparison fails although no report does |
| `CiWorkers.SeedUnion` | scripts/performance.py:155-176 | the fixed seeds and the open ones of both registries, ascending and without repetition, or an error exactly for a malformed entry |
| `CiWorkers.AllPicked` | scripts/performance_campaign.py:1321-1322 | the workers together pick every seed as often as it is listed, also when there are more workers than seeds |
| `CiWorkers.ReportedAsAsked` | scripts/performance_campaign.py:1318-1335 | when the check passes every run, of any axis, runtime or scenario, was reported exactly as often as the campaign asks for it |
| `CiWorkers.SeedsAsListed` | scripts/performance_campaign.py:1321-1335 | every seed was reported as often as it is listed, for any list; with no seed worker, never |
| `CiWorkers.ReportedExactlyOnce` | scripts/performance_campaign.py:1318-1335 | for seeds without repetition every shard, seed and runtime/scenario pair was reported once and nothing else was; with no seed worker no seed was |
| `CiWorkers.ExpectedWorkers` | scripts/performance_campaign.py:1318-1330 | exactly the workers of the campaign owe something, each expected once; any other kind or index is refused |
| `CiWorkers.WhatPasses` | scripts/performance_campaign.py:1328-1335 | for distinct seeds the check passes exactly when the workers are the expected ones, on the campaign's revisions, and each reports the runs it owes in some order |
| `CiWorkers.NoSeedWorkerPasses` | scripts/performance_campaign.py:1328-1335 | a campaign without seed workers that passes the check |
| `FixtureEvents.Collect` | scripts/performance_campaign.py:938-963 | the event loop accepts exactly well-formed collections and returns the creations and both marker times |
| `FixtureEvents.Attribute` | scripts/performance_campaign.py:969-998 | the claiming loop succeeds exactly when every creation lies in one and only one window and the scopes are respected |
| `FixtureEvents.CheckFixtureEvents` | scripts/performance_campaign.py:931-1000 | the whole check as one equivalence, with the evidence it returns: the attribution, or nothing after a failed build |
| `FixtureEvents.Judgements` | scripts/performance_campaign.py:974-987 | which samples have a window, are skipped or are rejected: scope as declared by the last family of that id or free when nothing is runnable, times in order between the markers |
| `FixtureEvents.WhatIsAttributable` | scripts/performance_campaign.py:969-998 | the condition in terms of windows: none rejected, required scopes met, free scopes empty, and every creation in exactly one window |
| `FixtureEvents.ProofsPartition` | scripts/performance_campaign.py:988-998 | on acceptance the container lists partition the observed creations |
| `FixtureEvents.OrderDoesNotMatter` | scripts/performance_campaign.py:971-998 | acceptance does not depend on the order of the windows |
| `FixtureEvents.ReorderedSamples` | scripts/performance_campaign.py:973-998 | nor on the order of the samples of either side |
| `AdminPath.PushEncodedSegment` | crates/magnetar-admin/src/lib.rs:4652-4663 | the loop appends the encoding of the segment |
| `AdminPath.EncodedByte` | crates/magnetar-admin/src/lib.rs:4621-4663 | what an encoding consists of: unreserved bytes, sub-delims, `:` and `@` (RFC 3986) are copied, every other byte becomes a triplet with upper-case digits |
| `AdminPath.DecodeEncode` | crates/magnetar-admin/src/lib.rs:4621-4663 | percent-decoding (section 2.1 of RFC 3986) undoes the encoding, for all bytes |
| `AdminPath.EncodedHasNoSlash` | crates/magnetar-admin/src/lib.rs:4621-4663 | an encoded segment stays one segment |
| `AdminPath.UrlPath` | crates/magnetar-admin/src/lib.rs:3476-3480 | the loop builds the base without trailing slashes followed by the encoded segments |
| `AdminPath.PathRoundTrip` | crates/magnetar-admin/src/lib.rs:3464-3487 | splitting the built path behind the base and decoding returns exactly the segments |
| `AdminPath.PathsAreDistinct` | crates/magnetar-admin/src/lib.rs:4233-4241 | under one service URL a path determines the API family and the segments |
| `AdminPath.FamilyPaths` | crates/magnetar-admin/src/lib.rs:4233-4241 | requests go to `/admin/v2` or `/admin/v3` below the service path, followed by the encoded segments |
| `AdminPath.NormalisationIsIdentity` | crates/magnetar-admin/src/lib.rs:3481-3485 | removing dot segments (section 5.2.4 of RFC 3986) leaves a rooted path alone if and only if it has none |
| `AdminPath.NormalisedPath` | crates/magnetar-admin/src/lib.rs:3481-3485 | the algorithm of section 5.2.4 on any rooted path: its segments walked with `.` staying and `..` going back |
| `AdminPath.DotSpellings` | crates/magnetar-admin/src/lib.rs:4665-4692 | exactly `.`, `%2E` and `%2e` decode to a dot |
| `AdminPath.RefusedNames` | crates/magnetar-admin/src/lib.rs:4672-4692 | which names are refused and for which reason, the first that applies |
| `AdminPath.EncodedNameIsNoDot` | crates/magnetar-admin/src/lib.rs:4652-4692 | the encoding of a validated name is no dot segment in any spelling, `%2e` included |
| `AdminPath.BuiltPathIsFixed` | crates/magnetar-admin/src/lib.rs:3476-3485 | over a base without dot segments every path from validated names is a fixed point of dot-segment removal |
| `AdminPath.RequestPathIsFixed` | crates/magnetar-admin/src/lib.rs:4233-4241 | the same below the service URL of a client |
| `AdminNames.NamespaceAccepted` | crates/magnetar-admin/src/lib.rs:4702-4714 | accepts exactly two valid names with one slash between them, and returns them |
| `AdminNames.TopicAccepted` | crates/magnetar-admin/src/lib.rs:4719-4734 | accepts exactly three valid names, with at most one scheme in front |
| `AdminNames.FunctionIdAccepted` | crates/magnetar-admin/src/lib.rs:4760-4774 | accepts exactly three valid names |
| `AdminNames.FunctionIdsAreBareTopics` | crates/magnetar-admin/src/lib.rs:4719-4774 | function ids are the topics that do not carry the scheme |
| `AdminNames.CanonicalTopic` | crates/magnetar-admin/src/lib.rs:2810-2825 | a parsed topic printed canonically parses to the same names |
| `AdminNames.TopicPaths` | crates/magnetar-admin/src/lib.rs:2824-2826 | two topics share a request path exactly when they name the same topic, and normalising the path changes nothing |
| `AdminNames.TopicPath` | crates/magnetar-admin/src/lib.rs:2824-2826 | the path of a topic written out: service path, `/admin/v2/persistent/`, and the encodings of tenant, namespace and name |
| `AdminNames.FunctionIdShape` | crates/magnetar-admin/src/lib.rs:4760-4770 | refused for its shape exactly when it is not three non-empty parts without a slash |
| `AdminNames.NamespaceShape` | crates/magnetar-admin/src/lib.rs:4702-4711 | the same for two parts |
| `Deadlines.ClampingShortens` | crates/magnetar-auth-oauth2/src/lib.rs:509-519 | the one-hour fallback never lies behind the advertised expiry |
| `Deadlines.ExchangeBound` | crates/magnetar-auth-athenz/src/lib.rs:313-330 | a cache whose entries last at least L is refilled at most ⌊T/L⌋ + 1 times in a span T |
| `Athenz.AthenzProvider.Unfetched` | crates/magnetar-auth-athenz/src/lib.rs:206-221 | a new provider has an empty cache |
| `Athenz.AthenzProvider.WithRoleToken` | crates/magnetar-auth-athenz/src/lib.rs:227-235 | a pinned token that is never due |
| `Athenz.AthenzProvider.Initial` | crates/magnetar-auth-athenz/src/lib.rs:482-491 | the cached token, or an error when there is none |
| `Athenz.AthenzProvider.EnsureRoleToken` | crates/magnetar-auth-athenz/src/lib.rs:313-330 | the whole outcome in arithmetic: when it is fresh, has nothing to do, fails or panics, and the deadline it stores: lifetime less margin after now, the whole lifetime when the margin exceeds it, an hour when that overflows |
| `Athenz.FreshTokenIsAlive` | crates/magnetar-auth-athenz/src/lib.rs:291-380 | after every interleaving a token called fresh at t was fetched less than its advertised lifetime before t |
| `Athenz.FreshTokenHasMargin` | crates/magnetar-auth-athenz/src/lib.rs:287-380 | after every interleaving a token that lives at least the margin is called fresh only while more than the margin is left, on the fallback too; without overflow, exactly then |
| `Athenz.CacheIsKept` | crates/magnetar-auth-athenz/src/lib.rs:227-330 | a filled cache never empties and a pinned token is never replaced |
| `Athenz.UninterruptedRefresh` | crates/magnetar-auth-athenz/src/lib.rs:313-330 | two uninterrupted steps of the machine are one call of the method |
| `Athenz.RefreshesAreRare` | crates/magnetar-auth-athenz/src/lib.rs:313-380 | at most ⌊T/L⌋ + 1 successful exchanges in a sequential run whose clock stays in the span |
| `OAuth2.ClientCredentialsFlow.constructor` | crates/magnetar-auth-oauth2/src/lib.rs:380-391 | a new flow has an empty cache |
| `OAuth2.ClientCredentialsFlow.Initial` | crates/magnetar-auth-oauth2/src/lib.rs:528-536 | the cached token, or an error when there is none |
| `OAuth2.ClientCredentialsFlow.FetchToken` | crates/magnetar-auth-oauth2/src/lib.rs:462-470 | a successful reply replaces the cache and nothing else does, with the deadline written as arithmetic: the lifetime in seconds after receipt, or an hour |
| `OAuth2.ClientCredentialsFlow.EnsureFresh` | crates/magnetar-auth-oauth2/src/lib.rs:474-489 | fetches exactly when there is no token or the leeway reaches its deadline, panics when the leeway overflows the clock, and on success a token is cached |
| `OAuth2.PromptTokenIsAlive` | crates/magnetar-auth-oauth2/src/lib.rs:215-519 | after every interleaving, also of reading the clock with storing the token, a token received within the leeway of its issue is never called fresh once it has expired |
| `OAuth2.WhenFreshMeansAlive` | crates/magnetar-auth-oauth2/src/lib.rs:215-489 | a cached token is never called fresh when expired if and only if its deadline is within issue, lifetime and leeway; without the fallback, if and only if the delay is within the leeway |
| `OAuth2.UninterruptedRefresh` | crates/magnetar-auth-oauth2/src/lib.rs:429-489 | the steps of one refresh that nothing interrupts are one call of the method |
| `OAuth2.UninterruptedFetch` | crates/magnetar-auth-oauth2/src/lib.rs:429-470 | the same for a fetch that nobody checked for |
| `OAuth2.CallsMoveForward` | crates/magnetar-auth-oauth2/src/lib.rs:429-489 | a call is moved only by steps of its own task, and only forward |
| `OAuth2.RequestFindsToken` | crates/magnetar-admin/src/lib.rs:3499-3515 | after a successful refresh, and whatever other fetches do, a request finds a token and is refused only when it is empty |
| `OAuth2.FetchesAreRare` | crates/magnetar-auth-oauth2/src/lib.rs:474-519 | at most ⌊T/L⌋ + 1 successful exchanges in a sequential run when L and the leeway fit in an hour or nothing overflows |
| `OAuth2.FallbackBreaksBound` | crates/magnetar-auth-oauth2/src/lib.rs:509-519 | a run with one exchange too many |
| `OAuth2.WhenFetchesAreRare` | crates/magnetar-auth-oauth2/src/lib.rs:474-519 | the bound holds for every sequential run if and only if L and the leeway fit in an hour |
| `SaslHandshake.ScriptedGssapiClient.Step` | crates/magnetar-auth-sasl/src/kerberos.rs:290-317 | one row is consumed, replies only when its challenge matches, and completion is set by a row that needs no continuation |
| `SaslHandshake.SaslKerberos.InitialToken` | crates/magnetar-auth-sasl/src/kerberos.rs:173-176 | the step with the empty challenge |
| `SaslHandshake.SaslKerberos.RespondToChallenge` | crates/magnetar-auth-sasl/src/kerberos.rs:178-188 | the step, except that an empty challenge after completion is answered with nothing |
| `SaslHandshake.TranscriptIsReplayed` | crates/magnetar-auth-sasl/src/kerberos.rs:168-322 | over every call sequence the replies are those of the matching consumed rows, consumed rows are successes plus mismatches, and completion is the first successful final row |
| `SaslHandshake.RepliesAreInOrder` | crates/magnetar-auth-sasl/src/kerberos.rs:290-317 | the replies are a subsequence of the transcript |
| `SaslHandshake.ScriptedHandshakeCompletes` | crates/magnetar-auth-sasl/src/kerberos.rs:168-322 | a broker that sends the scripted challenges gets every reply of the script in order, and the handshake is then complete |
| `SaslHandshake.AfterCompletion` | crates/magnetar-auth-sasl/src/kerberos.rs:178-297 | completion is permanent: no call changes the state, an empty challenge is answered with nothing, everything else is refused |
| `SaslHandshake.AfterExhaustion` | crates/magnetar-auth-sasl/src/kerberos.rs:294-298 | a drained transcript stays incomplete and every call fails |
| `SaslHandshake.DrainedIsNotComplete` | crates/magnetar-auth-sasl/src/kerberos.rs:290-321 | a transcript of one row after which the client is drained and not complete |
| `SaslHandshake.WhenDrainedIsComplete` | crates/magnetar-auth-sasl/src/kerberos.rs:290-321 | over every call sequence a drained client is complete if and only if the last row of its transcript matched and needed no continuation |
| `MemoryLimit.StepKeepsInvariant` | crates/magnetar-proto/src/memory_limit.rs:159-307 | every atomic step of every operation, each call of a waker included, keeps the counter equal to the live reservations, the lock, the registrations and the absence of missed releases |
| `MemoryLimit.ReleaseNeverWraps` | crates/magnetar-proto/src/memory_limit.rs:258-271 | the counter holds at least the bytes a release gives back |
| `MemoryLimit.BudgetIsConserved` | crates/magnetar-proto/src/memory_limit.rs:159-271 | after every interleaving the counter is the sum of the live reservations and within the limit |
| `MemoryLimit.TryReserveAlone` | crates/magnetar-proto/src/memory_limit.rs:159-189 | uninterrupted, exactly the bytes that fit are counted and held |
| `MemoryLimit.PollReady` | crates/magnetar-proto/src/memory_limit.rs:206-228 | a poll that fits holds its bytes and drops the caller's registration |
| `MemoryLimit.PollPending` | crates/magnetar-proto/src/memory_limit.rs:206-248 | a poll that does not fit registers the caller, under its old number if that is still live |
| `MemoryLimit.Attempt` | crates/magnetar-proto/src/memory_limit.rs:168-188 | an attempt that others interrupted: it succeeds, is refused, or is made again for the same bytes |
| `MemoryLimit.LockExcludes` | crates/magnetar-proto/src/memory_limit.rs:206-271 | while one task is inside the lock no other changes the registrations |
| `MemoryLimit.CancelledIsGone` | crates/magnetar-proto/src/memory_limit.rs:252-257 | giving up removes the caller's registration and nobody else's |
| `MemoryLimit.NoLimitNoAccounting` | crates/magnetar-proto/src/memory_limit.rs:163-165 | with a limit of 0 nothing is ever counted, held or parked |
| `MemoryLimit.NoReleaseIsMissed` | crates/magnetar-proto/src/memory_limit.rs:206-271 | unless a release is between its decrement and taking the parked set, every parked caller asks for more than is free; every pending caller that is not polling is parked, woken, or on the list of a release that is still calling wakers |
| `MemoryLimit.TakenButNotYetWoken` | crates/magnetar-proto/src/memory_limit.rs:262-271 | a reachable state in which a pending caller's registration is taken and its waker not yet called |
| `MemoryLimit.BlockedIsReached` | crates/magnetar-proto/src/memory_limit.rs:159-248 | a run that parks one caller behind the reservation of another, from which that state follows |
| `MemoryLimit.ParkedOrWoken` | crates/magnetar-proto/src/memory_limit.rs:206-271 | after every interleaving in which no release is calling wakers, a pending caller that is not polling is parked or has been woken |
| `MemoryLimit.OlderFirst` | crates/magnetar-proto/src/memory_limit.rs:267-268 | of two parked callers the one that registered first comes first on the list a release takes |
| `MemoryLimit.PrefixWoken` | crates/magnetar-proto/src/memory_limit.rs:268-270 | part of the way through its list a release has woken exactly the callers at its head, and the others are left |
| `MemoryLimit.ReleaseWakesEverybody` | crates/magnetar-proto/src/memory_limit.rs:262-271 | a release that finds the lock free empties the parked set, wakes everybody it found there with its remaining steps, and ends |
| `MemoryLimit.EmptyBudgetParksNobody` | crates/magnetar-proto/src/memory_limit.rs:206-271 | with everything released and nothing under way only requests above the whole limit are parked |
| `Abbreviations.HiddenIsHide` | scripts/markdown-sembr.py:60-65 | for a NUL-free text the hidden text is a sequence of letters and placeholders that still mean the text |
| `Restoring.RoundTrip` | scripts/markdown-sembr.py:60-77 | hiding and restoring returns the text when it is unambiguous, and leaves a NUL in it when it is not |
| `Restoring.OrdinaryTextIsUnambiguous` | scripts/markdown-sembr.py:60-77 | a text in which `ABBR` is not written is unambiguous |
| `Sentences.HideAbbreviations` | scripts/markdown-sembr.py:60-65 | the loop hides the table entry by entry and remembers those that occur |
| `Sentences.GatherSentences` | scripts/markdown-sembr.py:69-74 | the loop puts each text together with its punctuation and drops the whitespace |
| `Sentences.SplitSentences` | scripts/markdown-sembr.py:58-79 | hiding, cutting behind each sentence end, restoring and stripping |
| `Sentences.EndAtIsExact` | scripts/markdown-sembr.py:39-44 | the scanner finds a sentence end exactly where the pattern, written out over character ranges, matches |
| `Prose.ProseComesBack` | scripts/markdown-sembr.py:58-79 | sentences that are closed and begin as sentences do, joined into one text without abbreviations, are split into the same sentences |
| `Prose.TwoSentences` | scripts/markdown-sembr.py:58-79 | two plain sentences are split in two |
| `Sentences.SentencesKeepWords` | scripts/markdown-sembr.py:58-79 | the words of the sentences are the words of a NUL-free text if and only if the text is unambiguous |
| `Sentences.PiecesAreSentences` | scripts/markdown-sembr.py:67-74 | one sentence per line: no piece between two cuts holds a sentence end with another sentence behind it |
| `Sentences.SentencesAreStripped` | scripts/markdown-sembr.py:79-79 | no sentence is empty or has whitespace at an end |
| `AbbreviationTable.WordsAreLost` | scripts/markdown-sembr.py:29-79 | a text whose words are lost in every order the script's table can have |
| `AbbreviationTable.OrderExists` | scripts/markdown-sembr.py:61-61 | every list of entries has an order the script may use |
| `MarkdownLines.KindsDescribe` | scripts/markdown-sembr.py:46-55 | the line patterns: a quoted line is never a fence, blank or passed through, and the parts of a list item make up its line |
| `MarkdownPatterns.KindIsExact` | scripts/markdown-sembr.py:46-55 | the classification of a line is exactly what the patterns say, each written out over positions: fence, blank, passed through, indented, quote prefix, list item |
| `Markdown.EveryLineIsInABlock` | scripts/markdown-sembr.py:92-233 | the blocks of a document are its lines, each once and in order |
| `Markdown.CopiedExactly` | scripts/markdown-sembr.py:99-166 | a line is copied if and only if a line-by-line rule keeps it: front matter, fences and what they enclose, blank and pass-through lines, indented code, quoted lines without text |
| `MarkdownGrammar.DocumentIsRead` | scripts/markdown-sembr.py:92-233 | every document is its front matter and then the blocks of a grammar over the line patterns: how far a paragraph, item or quotation extends, what continues an item, what closes a fence, which prefix a quotation has; and no other blocks are |
| `MarkdownWords.BlockKeepsWords` | scripts/markdown-sembr.py:147-233 | a paragraph, list item or quotation keeps its words if and only if its joined text is unambiguous |
| `MarkdownWords.DocumentKeepsWords` | scripts/markdown-sembr.py:92-233 | the same for every block of every NUL-free document |
| `MarkdownScanner.ScanFront` | scripts/markdown-sembr.py:100-109 | front matter is copied up to its closing line |
| `MarkdownScanner.ScanQuote` | scripts/markdown-sembr.py:147-171 | a run of quoted lines becomes its quotation blocks under the prefix of its first line |
| `MarkdownScanner.ScanItem` | scripts/markdown-sembr.py:173-212 | a list item with its continuation lines becomes its sentences under marker and hanging indentation |
| `MarkdownScanner.ScanParagraph` | scripts/markdown-sembr.py:214-233 | a paragraph becomes its sentences |
| `MarkdownScanner.Process` | scripts/markdown-sembr.py:94-233 | the one-pass scanner outputs the targets of the document's blocks, in order |
| `MarkdownText.ProcessText` | scripts/markdown-sembr.py:92-236 | the text is split into lines, scanned and joined, with a newline at the end when it had one |
| `MarkdownText.LinesHaveNoBreak` | scripts/markdown-sembr.py:93-93 | no line holds a line break of any kind |
| `MarkdownText.SplitAtBreak` | scripts/markdown-sembr.py:93-93 | splitting break by break: a carriage return and a newline are one break, every other break is one of its own |
| `MarkdownText.LinesRoundTrip` | scripts/markdown-sembr.py:93-236 | splitting and joining returns the text if and only if all its line breaks are newlines |
| `MarkdownText.OutputLines` | scripts/markdown-sembr.py:92-236 | no target line holds a break, and reading the output gives the target lines back, an empty last one aside |
| `MarkdownText.ScriptOutputLines` | scripts/markdown-sembr.py:29-236 | that holds of the script's own table in whatever order it is tried, and what the script leaves alone has only newlines |
| `MarkdownText.CopiedDocument` | scripts/markdown-sembr.py:92-236 | a document whose lines are all copied comes back unchanged if and only if its line breaks are newlines |
| `MarkdownText.PassedThroughDocument` | scripts/markdown-sembr.py:92-166 | the lines of a document of pass-through lines are all copied |
| `MarkdownText.FixedPointHasOnlyNewlines` | scripts/markdown-sembr.py:92-236 | a text the script returns unchanged has no line break but newlines |
| `MarkdownText.VerticalTabIsReplaced` | scripts/markdown-sembr.py:93-236 | two headings with a vertical tab between them: copied, and yet changed |
| `MarkdownText.ScriptKeepsWords` | scripts/markdown-sembr.py:92-236 | a NUL-free document keeps all its words in order, quote prefixes aside, if and only if every block is unambiguous |
| `MarkdownText.TextKeepsWords` | scripts/markdown-sembr.py:92-236 | without quotations that is the words of the whole input and the whole output |

## Left out

- The Pulsar connection state machine, consumers, producers and transactions: beyond the memory budget nothing of `crates/magnetar-proto` is modelled.
- The HTTP endpoints, multipart bodies and JSON decoding of the admin client: thin wrappers over libraries, each settled by one branch.
- TLS selection, the ZTS client, the native GSSAPI binding, SASL PLAIN, and the redaction of debug output.
- Docker, Cargo, git and profiler plumbing, report writing, and `scripts/performance/control.c`.
- The identity checks of plans, reports and manifests (revisions, scopes, execution contracts): one Boolean each in `Reconcile`, since no property depends on how they are decided; calibration keys are numbered rather than spelled.
- The JSON shape of a Docker event and the default arguments of the fixture check: events arrive as records with optional fields.
- The path tests of `scripts/performance.py` that ask whether an input escapes the checkout: paths are lists of components below the checkout.
- Reading the two registry files behind the seed union.
- The UTF-8 test that `send` makes on a token after its emptiness guard.
- MemoryLimit.Step: waiter numbers are unbounded, where the source counts in a `u64` and argues that it cannot wrap; a lost compare-and-swap retries, but that it eventually wins is not claimed.
- XtaskLexer.SkipInertRegion: works on characters, where the source works on the bytes of a UTF-8 text; every byte it looks for is a whole character.
- Snapshot.DirectoryInputs: one walk reads a tree that stands still during it; changes are modelled between the walks of a scenario and of its recheck.
- MarkdownScanner.ScanQuote: takes the quote prefix before its loop rather than in the first turn of it.
- Idempotence of the Markdown script: a sentence may begin with what a second pass reads as a list item.
