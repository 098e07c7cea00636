# Verified model of Next Infra's deterministic core

Next Infra keeps a local, committed picture of infrastructure: resources observed at providers, relations between them,
local bindings, and relations inferred by rules. It answers bounded queries over that picture. This project models the
decision logic of that core in Dafny and proves what its documentation and its code promise. Provider I/O, storage and
process handling appear only as arbitrary functions, maps and sets.

| module | models |
|---|---|
| `Wrappers`, `Arithmetic`, `Text`, `Ordering` | options and results, 64-bit checks, quotients, splitting and decimal numerals, text order, ordered listings of sets |
| `Calendar`, `Timestamps` | the two civil calendars, the timestamp printer and parser |
| `Topology` | the bounded breadth-first walk over the stored relations |
| `Keyset`, `Cursors` | keyset pages, the service cursor and the change cursor, paging to the end |
| `Freshness`, `Like`, `Clauses`, `Filters`, `ResourcePages` | freshness classes, pattern matching and its escaping, clauses with positional parameters and what they mean, the filter clause of a plan, the whole resource query |
| `Attributes`, `Normalizer` | projection of attribute trees onto an allowlist, leaf accounting, screening for secrets, one newest entry per key |
| `Inference`, `Bindings`, `BindingTexts` | the two services that rewrite the relation table, over whole runs; the table and its versions by the texts of their ids, and the store that checks identities |
| `SshLocks`, `SshCancellation`, `SshBatch` | the per-host lock table, the cancellation flag and its notification, the probe loop |
| `GitHubPages`, `GitHubSync` | link headers and bounded pagination; the page cache, the routes and the request budget of a sync |
| `Scheduler` | registration and planning |
| `Encoders` | percent-encoding, the canonical query, Base64 |

Code that updates fields or buffers step by step is modelled by classes and methods with loops
(`QueryBuilder`, `BindingService`, `InferenceEngine`, `GitHubClient`, `GitHubConnector`, `Scheduler`, `LockRegistry`, `BuildTopology`,
`ProjectAttributes`, `Normalize`, `ExecuteProbes`, the encoders); each is proved equal to a specification function or
against the property itself, and the laws are proved of that function over all inputs, runs or interleavings. Laws whose names end
in `Means`, `Fate`, `Exactly` or `Keys` say what a specification function computes without naming its body.

## Assumptions

- Digests and formatted identities stand for the fields they are made of, save the texts of configured relations and their
  versions, which are modelled.
- Binding ids are drawn in one format, of one length; relation kinds hold no colon.
- The store applies a commit at once, as upserts into maps (`BindingTexts` also has the database, which refuses some); a page is read from one state of the tables. Between two reads
  of a topology walk other writers may commit (`history`); a committed revision names one state.
- Endpoints of stored relations are stored resources (foreign keys).
- Ids drawn for new bindings are fresh. Clock values, cancellation checks and the active resources at each call are
  arbitrary parameters.
- A provider is an arbitrary function of everything it was ever asked; the mappers of a page are arbitrary functions of the
  pages.
- A `Notify` wakes every waiter that registered before `notify_waiters`, whether or not it is already waiting.
- The lower case of a search text beyond ASCII is given.
- Text is ordered as sequences of characters, as by the binary collation of SQLite and by ordered maps; texts handed to the
  encoders are given by their bytes.

## What the code does where its promise fails

- `push_freshness_filter` with no cutoff at all emits `AND ()`, which is not a clause. `validate_cutoffs` lets an empty cutoff
  map pass when no resource is stored, so a query for some but not all classes then fails. `Filters.FilterMeans` and
  `ResourcePages.QueryResources` state exactly this case.
- `encode_cursor` can produce a cursor that `decode_cursor` refuses (longer than 512 bytes, or holding a control character).
  Paging completes if and only if no row that ends a page is such a row: `Cursors.ResourcePaging`, `Cursors.ChangePaging`,
  with the concrete failure `Cursors.LongIdStopsPaging`.
- `project_attributes` reports too few dropped leaves when one allowed path with leaves lies inside another and some leaf of
  the source is not allowed: `Attributes.LeavesAreAccounted` is the exact condition, `Attributes.NestedPathsMiscount` an input.
- The text of a binding's relation id does not tell endpoints apart when they overlap: one source is the other followed by
  `:` and some text, and that text and `:` begin the other's target (`BindingTexts.EndpointsCollide`). In a store that only
  upserts, a binding moved between such endpoints names one text twice, and its former relation is lost under it; the
  mirror of the bindings still holds (`RunsKeepTextsMirrored`), but the table is whole exactly when no binding ever joined
  overlapping endpoints (`TextTableIsWholeWithoutOverlap`), and version ids repeat exactly when some move did
  (`VersionTextsDiffer`). The database refuses to change the identity behind a text, so there the move fails as a store
  error and changes nothing, exactly when the new endpoints overlap with some the binding once joined
  (`StoreRefusesOverlap`); its table is always whole and its version ids never repeat.
- Ids of inferred versions and changes are formed of relation and time, and a run does not check that time has advanced. They
  repeat exactly when two successful runs at one time both emit for a relation; the database ignores the later ones, so the
  stored history lacks them (`Inference.IdsRepeatExactly`, with the input `Inference.SameTimeLosesChange`).
- `truncated` may be set on a complete answer, since the edge cap is looked at before a level and relations between two levels
  are read at both. `Topology.BuildTopology` says exactly when it is set, `Topology.CompleteMayBeMarked` gives an input.
- The Aliyun calendar casts the year to 32 bits: `Calendar.AliyunCalendarAgrees` says from which day on it is wrong,
  `Calendar.LastSecondDiffers` gives a second.

## Model

| member | source | states |
|---|---|---|
| Topology.BuildTopology | crates/next-infra-runtime/src/query_source.rs:780-893 | the walk, with commits possible between its queries: no body exactly when the focus is not stored; otherwise exactly the answer of the levels walked in turn (`AnswerFrom`), with stored nodes. It is `Sound` (caps, stored edges between returned nodes, every node reached from the focus by at most `depth` returned edges, frontier just outside across a relation of its direction and only when truncated at a cap); when not truncated `Complete` (the ball of radius `depth` and all relations touching the ball of radius `depth - 1`); truncated if and only if some level is `CutShort`; and cut or not it is `Held`: the ball and relations of every level up to the first cut one are returned, and each relation read there is returned, on the frontier, or between returned nodes beyond the edge cap; the walk goes on past a cut, and at every level it walks, cut or not, each relation of that level's page is returned, on the frontier, or between returned nodes beyond the edge cap, every node first returned at the next level is joined to this one by a returned edge, and it ends only at its depth, when nothing new was met, or without edges left (`Layered`). Each error has its cause |
| Topology.WalkLevel | crates/next-infra-runtime/src/query_source.rs:820-859 | one level keeps the graph sound, accounts for every relation of its page (returned, or on the frontier, or between two returned nodes beyond the edge cap), and marks a cut only when the level overflows a cap |
| Topology.SmallNeighbourhoodsAreUncut | crates/next-infra-runtime/src/query_source.rs:799-861 | a neighbourhood within the node cap, and twice over within the edge cap, is never truncated, so its answer is complete |
| Topology.CompleteMayBeMarked | crates/next-infra-runtime/src/query_source.rs:799-804 | of one stored relation, with an edge cap of one and depth two, every finished answer is complete and yet marked truncated |
| Topology.QueryRelations | crates/next-infra-store/src/query_projection.rs:169-199 | the first `limit` relations past the cursor that touch a set of resources, or lie within it, refused exactly outside the limits |
| Topology.BallIsWalks | crates/next-infra-runtime/src/query_source.rs:799-861 | the ball of radius n, the measure of completeness, is exactly what undirected walks of at most n relations reach |
| Topology.UncutIsComplete | crates/next-infra-runtime/src/query_source.rs:799-861 | a walk that ends uncut, by depth or because nothing new was met, has the whole ball and all its relations |
| Calendar.CivilOfDayNumber | crates/next-infra-runtime/src/query_source.rs:1512-1524 | every valid date from March of year 0 on comes back from its day number |
| Calendar.DayNumberOfCivil | crates/next-infra-runtime/src/query_source.rs:1512-1524 | every day from the first of March of year 0 on has a valid date with that day number |
| Calendar.CivilIsGregorian | crates/next-infra-runtime/src/query_source.rs:1512-1524 | the date of day n + 1 is the Gregorian successor of the date of day n (RFC 3339, appendix C) |
| Calendar.NextDayNumber | crates/next-infra-runtime/src/query_source.rs:1595-1617 | the Gregorian successor of a date has the next day number |
| Calendar.EpochDate | crates/next-infra-runtime/src/query_source.rs:1512-1524 | day 0 is 1970-01-01, which with the successor law fixes the whole calendar |
| Calendar.DaysFromCivilRoundTrip | crates/next-infra-runtime/src/query_source.rs:1595-1617 | for every day an i64 of milliseconds can reach, no checked step of the inverse fails and it gives the day back |
| Calendar.DaysFromCivilExactly | crates/next-infra-runtime/src/query_source.rs:1595-1617 | for any month of the calendar the checked inverse succeeds exactly for valid dates whose day number fits, with that number |
| Calendar.AliyunCalendarAgrees | crates/next-infra-connector-aliyun/src/lib.rs:469-487 | the connector's calendar equals the other one if and only if the day lies before the year 2^32 |
| Calendar.LastSecondDiffers | crates/next-infra-connector-aliyun/src/lib.rs:469-487 | at the last second count of 64 bits the two dates differ |
| Timestamps.TimestampRoundTrip | crates/next-infra-runtime/src/query_source.rs:1499-1593 | parsing a printed timestamp gives it back for every value from 0 to i64::MAX, years above 9999 included |
| Timestamps.TimestampShape | crates/next-infra-runtime/src/query_source.rs:1499-1510 | before the year 10000 the text has the fixed 24-character shape of RFC 3339 section 5.6 |
| Timestamps.ParseParts | crates/next-infra-runtime/src/query_source.rs:1534-1593 | the parser finds every printed date and clock part again, whatever they are |
| Timestamps.FractionMeans | crates/next-infra-runtime/src/query_source.rs:1526-1593 | a fraction of one to three digits reads as milliseconds, none as zero, and anything else is refused |
| Text.ParseI64Means | crates/next-infra-store/src/query_projection.rs:1085-1096 | digits, bare or signed, parse to their number when it fits 64 bits, and nothing else parses |
| Keyset.ReadPage | crates/next-infra-store/src/query_projection.rs:419-432 | reading one row more than the limit and dropping it yields the page of the first `limit` remaining rows, with a cursor exactly when rows are left |
| Keyset.CursorAdvances | crates/next-infra-store/src/query_projection.rs:419-432 | past the cursor of a cut page remain exactly the rows the page left out, and fewer than before |
| Keyset.PagesEnumerate | crates/next-infra-store/src/query_projection.rs:398-432 | from any cursor, following cursors lists every remaining row exactly once, in order, and ends |
| Keyset.PagesEnumerateAll | crates/next-infra-store/src/query_projection.rs:398-432 | from no cursor, it lists the whole table |
| Cursors.CursorRoundTrip | crates/next-infra-query/src/service.rs:496-512 | the service decodes its own cursor exactly when the value is non-empty, without control characters and at most 507 bytes |
| Cursors.ChangeCursorRoundTrip | crates/next-infra-store/src/query_projection.rs:1077-1096 | a change cursor names its change again, colons in the id included |
| Cursors.CursorsTaken | crates/next-infra-query/src/service.rs:496-512 | the service takes a cursor for a value exactly when it is the prefix and an encodable value |
| Cursors.EncodableMeans | crates/next-infra-query/src/service.rs:496-512 | a value can be encoded exactly when it is non-empty, at most 507 bytes long and free of the control characters of both ranges |
| Cursors.ByteLengthMeans | crates/next-infra-query/src/service.rs:496-512 | lengths are in bytes of UTF-8 (RFC 3629 section 3) |
| Cursors.ChangeCursorsTaken | crates/next-infra-store/src/query_projection.rs:1085-1096 | a text names a change exactly when it is a 64-bit number, the first colon and the non-empty id |
| Cursors.CursorsEnumerate | crates/next-infra-store/src/query_projection.rs:419-432 | paging through text cursors succeeds exactly when every row that ends a page survives as a cursor, and then lists every row once, in order |
| Cursors.ResourcePaging | crates/next-infra-query/src/service.rs:236-262 | the same for resource ids, ascending, with the condition in terms of the ids |
| Cursors.ChangePaging | crates/next-infra-store/src/query_projection.rs:619-638 | the same for changes, by time and then id, descending |
| Cursors.NewestFirst | crates/next-infra-store/src/query_projection.rs:619-638 | in the listing of the changes times never increase, and ids decrease within one time |
| Ordering.TextLessMeans | crates/next-infra-store/src/query_projection.rs:398-432 | a text comes before another when it begins it, or is smaller at the first character where they differ |
| Cursors.LongIdStopsPaging | crates/next-infra-query/src/service.rs:496-512 | an id of 508 letters on the first of two pages stops paging: the service refuses its own cursor |
| Freshness.ClassesAgree | crates/next-infra-runtime/src/query_source.rs:433-453 | for every positive u64 interval and any two timestamps, saturation included, the class by cutoffs and the class by age agree: fresh exactly up to one interval of age, expired exactly beyond three; the cutoffs are never inverted |
| Filters.FilterMeans | crates/next-infra-store/src/query_projection.rs:363-400 | with cutoffs not inverted, the generated clause read with its positional parameters accepts a row exactly when its id lies past the cursor, the search text is found in it, its kind, connector type and health are in the requested sets, it has the requested labels, and its freshness class is requested; it does not read as a clause exactly when some but not all classes are requested without any cutoff |
| Like.SearchFinds | crates/next-infra-store/src/query_projection.rs:1070-1075 | the escaped pattern of a search matches exactly the texts that contain the search text, its `%`, `_` and `\` taken literally |
| Like.EscapeFirst | crates/next-infra-store/src/query_projection.rs:1070-1075 | the three replacements escape character by character |
| Filters.SearchMeans | crates/next-infra-store/src/query_projection.rs:372-376 | the search piece accepts exactly the rows one of whose five texts contains the search text; an ASCII text as typed, in either case |
| Filters.AsciiSearchMeans | crates/next-infra-store/src/query_projection.rs:372-376 | for an ASCII search text the search piece accepts a row if and only if one of its five texts holds it at some place, character by character the same or ASCII letters 32 apart |
| Like.LowerMeans | crates/next-infra-store/src/query_projection.rs:372-376 | two characters have one lower case exactly when they are the same or ASCII letters 32 apart, and no lower case is a capital |
| Like.LoweredQuery | crates/next-infra-store/src/query_projection.rs:374 | lowering a search text beforehand changes nothing of what it finds |
| Filters.LabelsMean | crates/next-infra-store/src/query_projection.rs:391-395 | the label pieces accept exactly the rows that have every requested label with its value |
| Filters.FreshnessMeans | crates/next-infra-store/src/query_projection.rs:991-1034 | the freshness part accepts exactly the rows whose class, by the cutoffs of their own connection, is requested |
| Filters.ConnectionMeans | crates/next-infra-store/src/query_projection.rs:1008-1031 | the words of one connection accept exactly its rows of the requested classes |
| Clauses.InMeans | crates/next-infra-store/src/query_projection.rs:983-989 | `IN` over placeholders accepts exactly the texts bound to them |
| Filters.NoCutoffsNoClause | crates/next-infra-store/src/query_projection.rs:991-1034 | without cutoffs the freshness part is `()` and does not read |
| Clauses.AndMeans | crates/next-infra-store/src/query_projection.rs:363-400 | pieces joined by AND read as their conjunction, each taking its own parameters |
| Clauses.OrMeans | crates/next-infra-store/src/query_projection.rs:1003-1033 | pieces joined by OR read as their disjunction |
| Filters.CoveredRowsGetVerdicts | crates/next-infra-store/src/query_projection.rs:329-357 | when every stored row has a cutoff, every row gets its verdict |
| Filters.QueryBuilder.PushTextSet | crates/next-infra-store/src/query_projection.rs:983-989 | appends nothing for an empty set, and one `IN` piece with its parameters otherwise |
| Filters.QueryBuilder.PushSearch | crates/next-infra-store/src/query_projection.rs:372-376 | appends five comparisons with one pattern, joined by OR |
| Filters.QueryBuilder.PushLabels | crates/next-infra-store/src/query_projection.rs:391-395 | appends one piece per label, in key order |
| Filters.QueryBuilder.PushBranch | crates/next-infra-store/src/query_projection.rs:1015-1029 | appends the words and parameters that mean one class |
| Filters.QueryBuilder.PushConnection | crates/next-infra-store/src/query_projection.rs:1008-1031 | appends the piece of one connection |
| Filters.QueryBuilder.PushFreshnessFilter | crates/next-infra-store/src/query_projection.rs:991-1034 | appends nothing when no class or every class is requested, and the freshness piece otherwise |
| Filters.QueryBuilder.PushResourceFilters | crates/next-infra-store/src/query_projection.rs:363-400 | the finished clause and parameters are the pieces of the plan joined by AND |
| ResourcePages.VerdictsComeTogether | crates/next-infra-store/src/query_projection.rs:405 | any clause gives a verdict on every row or on none, so it can be refused before rows are read |
| ResourcePages.SelectionMeans | crates/next-infra-store/src/query_projection.rs:359-417 | the compiled clause selects exactly the matching rows past the cursor, or is refused |
| ResourcePages.QueryResources | crates/next-infra-store/src/query_projection.rs:151-160 | the query as a whole: it fails exactly for the first check that fails, and otherwise returns the page of the matching rows past the cursor, in order, each with the class of its connection's cutoffs, and the right next cursor |
| ResourcePages.SomeInverted | crates/next-infra-store/src/query_projection.rs:333-339 | finds an inverted cutoff exactly when there is one |
| ResourcePages.SomeMissing | crates/next-infra-store/src/query_projection.rs:340-355 | finds a stored connection without cutoff exactly when there is one |
| Attributes.ProjectAttributes | crates/next-infra-normalizer/src/lib.rs:370-389 | the loop builds the projected tree of the dotted allowlist and counts the dropped leaves, stopping at zero |
| Attributes.ProjectionIsExact | crates/next-infra-normalizer/src/lib.rs:370-412 | the tree equals the source at and under every allowed path, and elsewhere holds only objects on the way to one |
| Attributes.ExactIsUnique | crates/next-infra-normalizer/src/lib.rs:370-412 | that description fits one tree only |
| Attributes.ProjectionsAgree | crates/next-infra-normalizer/src/lib.rs:370-412 | two sources have one projection exactly when they agree at every allowed path |
| Attributes.PathsMean | crates/next-infra-normalizer/src/lib.rs:370-389 | the paths are those of the allowlist: non-empty, of segments without dots, each joining to an allowed text and each allowed text joined from one |
| Attributes.LeafCountMeans | crates/next-infra-normalizer/src/lib.rs:414-419 | the count of leaves is the number of paths at which a leaf is |
| Attributes.LeavesAreAccounted | crates/next-infra-normalizer/src/lib.rs:370-419 | kept plus dropped leaves are the leaves of the source if and only if no allowed path that is present and holds leaves lies inside another, or every leaf of the source is at or under an allowed path |
| Attributes.NothingLostMeansCovered | crates/next-infra-normalizer/src/lib.rs:370-419 | the projection has no more leaves than the source, and as many exactly when every leaf is covered |
| Attributes.PrefixFreeAccounts | crates/next-infra-normalizer/src/lib.rs:370-419 | for an allowlist in which no path lies inside another the account is exact |
| Attributes.NestedPathsMiscount | crates/next-infra-normalizer/src/lib.rs:370-389 | an allowlist of `a` and `a.b` keeps one of two leaves and reports none dropped |
| Attributes.ProjectionIsIdempotent | crates/next-infra-normalizer/src/lib.rs:370-389 | projecting a projected tree changes nothing and drops nothing |
| Attributes.InsertedBelow | crates/next-infra-normalizer/src/lib.rs:399-412 | at and below the insertion path the inserted value is found |
| Attributes.InsertedBeside | crates/next-infra-normalizer/src/lib.rs:399-412 | an insertion changes nothing beside its path |
| Attributes.InsertAddsLeaves | crates/next-infra-normalizer/src/lib.rs:399-419 | a value put where nothing was adds exactly its own leaves |
| Normalizer.CollapseObservations | crates/next-infra-normalizer/src/lib.rs:120-166 | the loop over observations equals the collapse of the normalized list, with the code of the first failure |
| Normalizer.CollapseKeepsNewest | crates/next-infra-normalizer/src/lib.rs:120-166 | a list succeeds exactly when every observation is accepted and observations of one key agree; then the entries are one per key, each its newest observation, and dropped leaves add up |
| Normalizer.CollapseIgnoresOrder | crates/next-infra-normalizer/src/lib.rs:120-166 | permuted observations give the same entries and count, or fail both times |
| Normalizer.Normalize | crates/next-infra-normalizer/src/lib.rs:117-173 | the whole batch: coverage against the mode of the request, secrets already found and warnings first, then resources, then relations, or the code of the first error |
| Normalizer.ResourceMeans | crates/next-infra-normalizer/src/lib.rs:175-241 | a resource observation is accepted exactly when attributes, name and labels hold no secret, its schema is known and its attributes are an object; the entry has its connection, kind, external id, description and time, and the exact projection of its attributes, with all leaves accounted for exactly under the condition of `LeavesAreAccounted`; an unknown schema and everything else are refused with their codes |
| Normalizer.RelationMeans | crates/next-infra-normalizer/src/lib.rs:243-296 | a relation observation is accepted exactly when its field path is no sensitive name and its kinds are known; the entry's key runs from the observed source to the observed target; refusals with their codes |
| Normalizer.BatchTells | crates/next-infra-normalizer/src/lib.rs:117-173 | behind every entry of an accepted batch stands a newest observation of that key with what it told, and every observation has its entry |
| Normalizer.BatchAcceptedExactly | crates/next-infra-normalizer/src/lib.rs:117-173 | a batch is accepted if and only if coverage fits the mode, no secret was found or stands in a warning, every observation is acceptable, and observations of one key agree in what is kept of them |
| Normalizer.BatchFailsFor | crates/next-infra-normalizer/src/lib.rs:117-173 | a batch fails with a code exactly when the first thing that fails it has that code: coverage or secrets, warnings, resources, relations |
| Normalizer.BatchInOrder | crates/next-infra-normalizer/src/lib.rs:117-173 | resources of a batch read in order of connection, kind and external id, relations of source, target, kind and evidence |
| Normalizer.SensitiveNameMeans | crates/next-infra-normalizer/src/lib.rs:351-368 | a name is sensitive exactly when one of its dotted segments reads, in either case and with hyphens for underscores, as one of the refused words |
| Normalizer.SecretTextMeans | crates/next-infra-normalizer/src/lib.rs:340-349 | a text is secret exactly when it begins with the bearer prefix or contains the head of a private key, in either case |
| Normalizer.HoldsSecretMeans | crates/next-infra-normalizer/src/lib.rs:314-338 | a value holds a secret exactly when some value inside it, at any depth, is a secret text or an object with a sensitive field name |
| Normalizer.BatchIsClean | crates/next-infra-normalizer/src/lib.rs:314-368 | no secret passes: attributes, names, labels, field paths and warnings of an accepted batch hold no sensitive name and no secret text |
| Normalizer.PartsAreClean | crates/next-infra-normalizer/src/lib.rs:314-338 | what a clean value keeps of itself is clean |
| Normalizer.NormalizationIgnoresOrder | crates/next-infra-normalizer/src/lib.rs:117-173 | permuting resources and relations gives the same validated batch, or fails both times |
| Normalizer.BatchIsSortedAndNewest | crates/next-infra-normalizer/src/lib.rs:117-173 | a batch is accepted exactly when nothing refuses it and its observations agree; output is strictly sorted by key and holds for every key observed its newest observation, and nothing else |
| Inference.InferenceEngine.Run | crates/next-infra-inference/src/lib.rs:64-158 | a failed run changes nothing; a successful one upserts the planned relations and records one commit |
| Inference.ProduceCandidates | crates/next-infra-inference/src/lib.rs:86-110 | the loop yields the relations by id and all inputs, or the error of the first candidate that fails |
| Inference.ProduceIsExact | crates/next-infra-inference/src/lib.rs:86-110 | a list succeeds exactly when every candidate is admitted and candidates of one identity are equal; then there is one relation per identity, and none besides |
| Inference.AdmitMeans | crates/next-infra-inference/src/lib.rs:160-217 | a candidate is invalid, or lacks a version, exactly for its own fields and the world, in that order; admitted it keeps endpoints, kind and confidence, and its inputs sorted without repetition |
| Inference.ConsistentMeans | crates/next-infra-inference/src/lib.rs:86-110 | a list agrees exactly when every candidate is admitted and candidates of one relation have one confidence |
| Inference.RunFailsFor | crates/next-infra-inference/src/lib.rs:64-110 | a run fails with an error exactly when its rule is not registered, its list is too long, or the first candidate that fails has that error |
| Inference.CandidatesAreStored | crates/next-infra-inference/src/lib.rs:77-242 | after a run every candidate is stored, active and seen now, with its source, target, kind, confidence and inputs; every output is of some candidate; the inputs recorded are exactly those of the candidates |
| Inference.RunRefreshes | crates/next-infra-inference/src/lib.rs:77-158 | after a run the rule's outputs are active and seen now, its other relations tombstoned, other rules untouched, and every first-seen time kept |
| Inference.RunsRefreshExactly | crates/next-infra-inference/src/lib.rs:64-158 | over any runs of any rules: the store holds every relation ever output, first seen at its first output through tombstoning and revival; it is active exactly when the last successful run of its rule output it |
| Inference.RunsKeepNamed | crates/next-infra-inference/src/lib.rs:64-254 | over any runs every stored inferred relation has the rule, source, target, kind and inputs its id names |
| Inference.InferenceIsCanonical | crates/next-infra-inference/src/lib.rs:77-147 | candidates permuted, repeated, or with permuted or repeated inputs succeed or fail alike and commit the same relations, outputs, inputs, versions and changes |
| Inference.ChangesTell | crates/next-infra-inference/src/lib.rs:137-147 | over any runs, the changes of a relation lead to its stored snapshot, each beginning where the one before led, and each version shows what is stored |
| Inference.EmissionsShow | crates/next-infra-inference/src/lib.rs:278-357 | each version and change shows source, target, kind, evidence and lifecycle of the relation as stored, with the origin its evidence names |
| Inference.IdsRepeatExactly | crates/next-infra-inference/src/lib.rs:278-327 | over any runs, ids of a relation's changes repeat if and only if two successful runs at one time both emit for it, and exactly then a history that ignores known ids lacks a change |
| Inference.StoredChangesTell | crates/next-infra-store/src/projection.rs:672-692 | while no id repeats, the stored history of a relation leads to what is stored of it |
| Inference.SameTimeLosesChange | crates/next-infra-inference/src/lib.rs:278-327 | a run that outputs a relation and one at the same time that does not: it is tombstoned, and its stored history stops at active |
| Inference.EmissionTextsAgree | crates/next-infra-inference/src/lib.rs:278-313 | texts of versions and changes agree exactly when relation and time do |
| Inference.RepeatIsQuiet | crates/next-infra-inference/src/lib.rs:112-147 | the same run again at the same time, over a world that has grown by what was recorded since, emits no version and no change and leaves the store as it is |
| Bindings.BindingService.CreateBinding | crates/next-infra-binding/src/lib.rs:53-76 | answers and changes the store as decided; a refused call changes nothing |
| Bindings.BindingService.UpdateBinding | crates/next-infra-binding/src/lib.rs:78-113 | the same for an update; a disabled binding stays disabled and is not checked for duplicates |
| Bindings.BindingService.DisableBinding | crates/next-infra-binding/src/lib.rs:115-134 | the same for disabling, which is idempotent |
| Bindings.BindingService.ReconcileBinding | crates/next-infra-binding/src/lib.rs:136-164 | the same for reconciling a status with the active resources |
| Bindings.CreateFate | crates/next-infra-binding/src/lib.rs:53-76 | a creation is invalid exactly for equal endpoints, else a duplicate exactly when a live binding joins them, and committed otherwise |
| Bindings.UpdateFate | crates/next-infra-binding/src/lib.rs:78-113 | an update is invalid, unknown, too early or a duplicate exactly for its reason, in that order, and committed otherwise |
| Bindings.DisableFate | crates/next-infra-binding/src/lib.rs:115-134 | a disabling finds nothing exactly for an unknown id, changes nothing exactly for a disabled binding, is too early exactly for a live one at a time not later, and is committed otherwise |
| Bindings.ReconcileFate | crates/next-infra-binding/src/lib.rs:136-164 | a reconciling finds nothing exactly for an unknown id, changes nothing exactly when the binding is disabled or its status fits its endpoints, and is then too early or committed by its time |
| Bindings.AnswerMeans | crates/next-infra-binding/src/lib.rs:53-164 | a call answers with the binding as stored after it, or with the error |
| Bindings.CommitMeans | crates/next-infra-binding/src/lib.rs:239-288 | a commit holds one or two relations seen at its time, a version of each at that time, and at most one change, with fields |
| Bindings.BindingService.EnsureUnique | crates/next-infra-binding/src/lib.rs:196-220 | refuses exactly when another binding, not disabled, has the same source, target and kind |
| Bindings.BindingService.CommitBinding | crates/next-infra-binding/src/lib.rs:239-288 | the loop upserts the relations of a commit and appends its versions and changes |
| Bindings.CommitKeepsInvariant | crates/next-infra-binding/src/lib.rs:239-400 | one commit keeps uniqueness, the mirror in the relation table, the replayable history and distinct ids |
| Bindings.RunsKeepInvariant | crates/next-infra-binding/src/lib.rs:53-288 | over any calls: no two live bindings share source, target and kind; the relation at a binding's current endpoints has the lifecycle of its status and all its others are tombstoned; the history replays to the current fields with every `before` right; no binding changes twice at one time, no relation has two versions of one time, and every stored relation has a version of the time it was last seen |
| Bindings.BindingsAreAsTold | crates/next-infra-binding/src/lib.rs:53-194 | over any calls: a binding has the endpoints and kind last asked for, is disabled exactly when some disabling was served, and otherwise is active exactly when both endpoints were active when last looked at |
| Bindings.FieldsAdvance | crates/next-infra-binding/src/lib.rs:354-400 | the recorded field changes take a history from the previous fields to the new ones, and each records what was there before |
| BindingTexts.RelationTextsAgree | crates/next-infra-binding/src/lib.rs:310-315 | two relation id texts of one binding agree exactly when the kinds agree and so do the joined endpoints |
| BindingTexts.EndpointsCollide | crates/next-infra-binding/src/lib.rs:310-315 | joined endpoints agree exactly when the endpoints are the same or overlap: one source is the other, a colon and some text, and that text and a colon begin the other target |
| BindingTexts.MoveRepeatsText | crates/next-infra-binding/src/lib.rs:239-260 | a commit that moves a binding names one relation text twice exactly when its former and new endpoints overlap |
| BindingTexts.TextsClash | crates/next-infra-binding/src/lib.rs:310-315 | two relations share a text exactly when they are one, or are of one binding and kind and their endpoints overlap |
| BindingTexts.InjectiveMeansNoClash | crates/next-infra-binding/src/lib.rs:310-315 | the texts of some relations tell them apart exactly when no two of them clash |
| BindingTexts.RunsKeepTextsMirrored | crates/next-infra-binding/src/lib.rs:53-288 | over any calls, overlapping endpoints included, the table keyed by texts holds each binding's own relation with the lifecycle of its status and every other relation tombstoned |
| BindingTexts.TextTableIsWhole | crates/next-infra-binding/src/lib.rs:53-288 | over any calls the table keyed by texts holds every relation exactly when the texts tell them apart |
| BindingTexts.TextTableIsWholeWithoutOverlap | crates/next-infra-binding/src/lib.rs:53-315 | that is, exactly when no binding ever joined overlapping endpoints by one kind |
| BindingTexts.VersionTextsDiffer | crates/next-infra-binding/src/lib.rs:325-352 | over any calls, the ids of versions never repeat if and only if no committed move joined overlapping endpoints |
| BindingTexts.VersionTextsAgree | crates/next-infra-binding/src/lib.rs:325-352 | two version ids agree exactly when their relation texts and times do |
| BindingTexts.RefusedExactly | crates/next-infra-store/src/projection.rs:642-670 | the database refuses relations exactly when, once stored, their texts would not tell them apart; otherwise its table stays whole |
| BindingTexts.StoreRefusesOverlap | crates/next-infra-store/src/projection.rs:322-354 | the database refuses a commit exactly when the binding's new endpoints overlap with endpoints it once joined by that kind |
| BindingTexts.StoredRunsKeepInvariant | crates/next-infra-store/src/projection.rs:322-354 | over any calls to the database, refused ones included, the invariant holds of the state its table stands for, and the table is whole |
| BindingTexts.StoredVersionsDiffer | crates/next-infra-store/src/projection.rs:322-354 | and its version ids never repeat |
| BindingTexts.RelationTextsCollide | crates/next-infra-binding/src/lib.rs:310-315 | two different endpoint pairs with the same text |
| SshLocks.RunsKeepInvariant | crates/next-infra-connector-ssh/src/client.rs:266-277 | in every interleaving: every live handle for a host is on the lock the table names, whoever inserts sees no live handle, locks are fresh, and each is owned exactly by the batch that runs |
| SshLocks.OneBatchPerHost | crates/next-infra-connector-ssh/src/client.rs:182-187 | in every interleaving live handles are on one lock exactly when they are for one host, and at most one batch per host runs |
| SshLocks.WaiterCanRun | crates/next-infra-connector-ssh/src/client.rs:182-187 | from every reachable state each waiting batch is at most two steps from running: the owner of its lock finishes, and it acquires |
| SshLocks.QuietRunsEnd | crates/next-infra-connector-ssh/src/client.rs:170-277 | every step but a new call lowers a measure, so without new calls only so many steps are left, in any order |
| SshLocks.StillMeansIdle | crates/next-infra-connector-ssh/src/client.rs:170-277 | when no step but a new call is possible, every call has ended |
| SshLocks.NeverStuck | crates/next-infra-connector-ssh/src/client.rs:182-187 | while a batch is under way, some batch under way can take a step |
| SshLocks.LockRegistry.ConnectionLock | crates/next-infra-connector-ssh/src/client.rs:266-277 | the call without interruption is one schedule of steps: dead entries go, live ones stay as they were, and the handle is on the host's live lock or on a new one |
| SshLocks.LockRegistry.RetainLive | crates/next-infra-connector-ssh/src/client.rs:270 | the sweep leaves exactly the entries whose lock is alive |
| SshCancellation.RunsKeepInvariant | crates/next-infra-connector-ssh/src/client.rs:75-91 | in every interleaving whoever waits registered before any notification |
| SshCancellation.CancelWakesEveryWaiter | crates/next-infra-connector-ssh/src/client.rs:75-91 | once some `cancel()` has completed, any waiter returns by at most two steps of its own; none returns before a cancel began |
| SshBatch.ExecuteProbes | crates/next-infra-connector-ssh/src/client.rs:189-262 | probes run in turn within the reserved output budget, each with its own timeout or what the batch has left; one outcome per executed probe and at most one more for the probe a budget stopped; a batch fails only for a cancellation or a mismatched host key, after probes that each left an outcome |
| SshBatch.JudgeMeans | crates/next-infra-connector-ssh/src/client.rs:224-262 | a report of success becomes that probe's output; a mismatched host key or a cancellation ends the batch; any other failure is recorded with its code |
| SshBatch.TimeoutMeans | crates/next-infra-connector-ssh/src/client.rs:192-223 | a probe has its own timeout while the batch has that long left, and otherwise what is left of 90 seconds |
| SshBatch.SumsMean | crates/next-infra-connector-ssh/src/client.rs:192-262 | reserved output is the sum of both limits of each probe, received output the sum of what was reported |
| SshBatch.HonestExecutorStaysInBudget | crates/next-infra-connector-ssh/src/client.rs:192-223 | an executor that honours each probe's limits and timeouts keeps the batch within the sum reserved and within its wall time |
| GitHubPages.NextUrl | crates/next-infra-connector-github/src/client.rs:397-423 | the loop over link entries equals the specification below, early failures included |
| GitHubPages.NextIsUnique | crates/next-infra-connector-github/src/client.rs:397-423 | a next URL is found exactly when one entry alone is marked next and its target is approved, and none exactly when no entry is marked |
| GitHubPages.GitHubClient.FetchPages | crates/next-infra-connector-github/src/client.rs:238-371 | for any provider: refused at once for a bad budget, token or entity tag; otherwise a walk of at most `max_pages` and `max_requests` requests along the next links, no URL twice, only the first conditional, until its last answer settles it, with the outcome that answer settles |
| GitHubPages.FetchIsDetermined | crates/next-infra-connector-github/src/client.rs:238-371 | this leaves one course and one outcome for any provider |
| GitHubPages.FetchMeans | crates/next-infra-connector-github/src/client.rs:238-371 | pages are returned if and only if every answer was a page and the last had no next link, with the bodies of all answers and the first entity tag among them; not modified if and only if the first answer was a 304; a failure has completed exactly the pages before its end; every request counts |
| GitHubPages.FailureMeans | crates/next-infra-connector-github/src/client.rs:238-371 | the code of every failure: budget and token before any request; a transport error; a late 304; a status by its class; too large a body; a bad link; a next link at the page or request limit; a URL already asked |
| GitHubPages.ClassifyMeans | crates/next-infra-connector-github/src/client.rs:449-487 | 401 is a failed authentication, 429 and a 403 with a retry time or no requests left a rate limit, any other 403 a permission, 404 not found, 500 to 599 an unavailable provider, all else invalid |
| GitHubPages.FirstEtagMeans | crates/next-infra-connector-github/src/client.rs:238-371 | the entity tag of a walk is that of its first answer that has one |
| GitHubPages.LimitsMean | crates/next-infra-connector-github/src/auth.rs:5-23 | tokens of 1 to 4096 visible characters, entity tags of header characters, pages of status 200 to 299 within 4 MiB |
| GitHubPages.SettledEnds | crates/next-infra-connector-github/src/client.rs:238-371 | a walk that has settled is not the beginning of a longer one |
| GitHubSync.GitHubConnector.FetchCached | crates/next-infra-connector-github/src/connector.rs:339-400 | adds one true record and answers as it says: with no request left a bounded failure, otherwise what the client fetched, a 304 standing for the cached pages and failing without any; a complete fetch replaces what is cached, anything else leaves the cache alone |
| GitHubSync.PagesAreWhole | crates/next-infra-connector-github/src/connector.rs:339-400 | pages were fetched whole, or, after a 304, are exactly those of the last complete fetch of that URL |
| GitHubSync.RecordCounts | crates/next-infra-connector-github/src/connector.rs:339-400 | a cached fetch makes no more requests than were left, and reports each |
| GitHubSync.OutcomeMeans | crates/next-infra-connector-github/src/connector.rs:339-400 | a cached fetch asks first for its URL with the entity tag of the last complete fetch of it, within what is left of 200 requests; a 304 stands for those pages, or is invalid without them; without a request left it is bounded |
| GitHubSync.GitHubConnector.CollectModule | crates/next-infra-connector-github/src/connector.rs:303-318 | one record; an error only for a failed credential or unreadable pages, and otherwise the collector with the requests and the gap of that record; recorded and remaining requests stay 200 together |
| GitHubSync.ModuleMeans | crates/next-infra-connector-github/src/connector.rs:303-318 | a module ends the sync exactly for a failed credential or unreadable pages; otherwise it adds its requests and what was read, and the failure on record is the first: the module's code, or a partial pagination |
| GitHubSync.GitHubConnector.CollectChildren | crates/next-infra-connector-github/src/connector.rs:290-337 | the records of one repository: its workflows, and its runs unless those ended the sync or used up the budget |
| GitHubSync.ChildrenTell | crates/next-infra-connector-github/src/connector.rs:290-337 | records alternate between workflows (two pages at most) and runs (one) of the routes in turn, and no failure is on record exactly when all of them were fetched and came whole and uncut |
| GitHubSync.FailureIsFirst | crates/next-infra-connector-github/src/connector.rs:488-507 | the failure on record is that of the first module that lacked something |
| GitHubSync.GitHubConnector.CollectRoutes | crates/next-infra-connector-github/src/connector.rs:178-186 | the children of all routes in turn, ended only by an error, the last of them, or a used-up budget, with the collector that the records make |
| GitHubSync.GitHubConnector.CollectFull | crates/next-infra-connector-github/src/connector.rs:162-187 | a full sync is determined by its records: the list with the whole budget, then the children of the routes it gives, with the error or the collector these make; at most 200 requests, each recorded; the routes are cached exactly when the list could be read |
| GitHubSync.FullSyncTells | crates/next-infra-connector-github/src/connector.rs:162-187 | no failure is on record if and only if the list came whole and uncut, and the workflows and runs of every repository on it were fetched and came whole and uncut |
| GitHubSync.ListMeans | crates/next-infra-connector-github/src/connector.rs:162-178 | the list ends the sync exactly for a failure without any page, a failed credential or unreadable pages; otherwise what was listed, and its failure, begin the collection |
| GitHubSync.FullSyncKeys | crates/next-infra-connector-github/src/connector.rs:162-187 | the resources and relations of a full sync are exactly those in the view of its list and of its children's records |
| GitHubSync.GitHubConnector.CollectTargets | crates/next-infra-connector-github/src/connector.rs:258-288 | the targets in turn, ended only by an error, the last of them, or a used-up budget, with the routes, gaps and requests of their records |
| GitHubSync.GitHubConnector.CollectTargeted | crates/next-infra-connector-github/src/connector.rs:162-187 | a targeted sync is determined by its records: those of the targets, then those of the children of the routes found, in order of their ids |
| GitHubSync.TargetMeans | crates/next-infra-connector-github/src/connector.rs:258-288 | a target ends the sync exactly as the list does; otherwise its routes are merged in order, and its requests, keys and gap added |
| GitHubSync.TargetedSyncKeys | crates/next-infra-connector-github/src/connector.rs:162-187 | the resources and relations of a targeted sync are exactly those in the views of its targets' and its children's records |
| GitHubSync.SortedInOrder | crates/next-infra-connector-github/src/repository/mod.rs:265-283 | merging puts routes in order of their ids and loses none |
| GitHubSync.GitHubConnector.TargetedRoutes | crates/next-infra-connector-github/src/connector.rs:198-220 | every locator must name a repository with a cached route; then the first such route of each, in order |
| GitHubSync.RouteFound | crates/next-infra-connector-github/src/repository/mod.rs:147-155 | a route is found exactly when one of that id is cached, and has that id |
| GitHubSync.GitHubConnector.Sync | crates/next-infra-connector-github/src/connector.rs:124-190 | a sync by its mode: incremental ones are refused, targeted ones need cached routes, and what is collected is finished |
| GitHubSync.Finish | crates/next-infra-connector-github/src/connector.rs:517-570 | keys come in order, each once, with the failure that makes the batch partial; a key there twice refuses the batch |
| GitHubSync.FinishedMeans | crates/next-infra-connector-github/src/connector.rs:517-570 | a batch is refused exactly when some key was collected twice; otherwise it holds exactly the keys collected, in order, with the failure and requests of the collector |
| GitHubSync.KeysCount | crates/next-infra-connector-github/src/connector.rs:702-734 | counting distinct keys finds a duplicate exactly when there is one |
| GitHubSync.TargetedSyncTells | crates/next-infra-connector-github/src/connector.rs:162-187 | no failure is on record if and only if every target, and the workflows and runs of every repository found, were fetched and came whole and uncut |
| Scheduler.Scheduler.Register | crates/next-infra-runtime/src/lib.rs:282-300 | a zero interval is refused without change; otherwise the entry is set |
| Scheduler.Scheduler.Plan | crates/next-infra-runtime/src/lib.rs:325-340 | the loop plans the due entries in id order and moves each to its next time, and no other |
| Scheduler.PlansAreTheDue | crates/next-infra-runtime/src/lib.rs:325-340 | an evaluation plans exactly the due connections, once each, in order |
| Scheduler.RunsOfConnection | crates/next-infra-runtime/src/lib.rs:315-340 | whatever else is registered, a connection runs exactly as its own entry and the clock decide |
| Scheduler.RunsExactly | crates/next-infra-runtime/src/lib.rs:325-347 | a connection runs at an evaluation if and only if the clock is at least its last run plus the interval (or at the last timestamp); before any run, if and only if its first time has come |
| Scheduler.NextDueMeans | crates/next-infra-runtime/src/lib.rs:325-347 | its next time is its last run plus the interval, up to the last timestamp |
| Scheduler.RunsAreTheDue | crates/next-infra-runtime/src/lib.rs:325-340 | the runs of an entry are exactly the clock values at which it runs |
| Scheduler.RunsAreSpaced | crates/next-infra-runtime/src/lib.rs:325-347 | the j-th run is at least (j - i) intervals after the i-th, up to the last timestamp, for any clock |
| Scheduler.ConnectionRunsAreSpaced | crates/next-infra-runtime/src/lib.rs:315-347 | over any due and wake evaluations: successive runs are an interval apart, and any window [a, b] before the last timestamp holds at most 1 + (b - a) / interval of them |
| Scheduler.RegistrationOrderIsIrrelevant | crates/next-infra-runtime/src/lib.rs:282-340 | registering the same connections in another order gives the same plans |
| Scheduler.RegisteredExactly | crates/next-infra-runtime/src/lib.rs:282-300 | distinct registrations are all kept as given, and no others |
| Encoders.Rfc3986Encode | crates/next-infra-connector-aliyun/src/lib.rs:423-434 | the loop percent-encodes byte by byte |
| Encoders.PercentRoundTrip | crates/next-infra-connector-aliyun/src/lib.rs:423-434 | decoding undoes percent-encoding, whose output holds no `=` and no `&` |
| Encoders.PercentOne | crates/next-infra-connector-aliyun/src/lib.rs:423-434 | letters, digits and `-_.~` stand for themselves, every other byte for its two upper-case hexadecimal digits |
| Encoders.PercentConcat | crates/next-infra-connector-aliyun/src/lib.rs:423-434 | encoding goes byte by byte: parts may be encoded apart |
| Encoders.CanonicalQueryRoundTrip | crates/next-infra-connector-aliyun/src/lib.rs:405-411 | the parameter map can be read back from its canonical query |
| Encoders.QueryMeans | crates/next-infra-connector-aliyun/src/lib.rs:405-411 | the query is one encoded `key=value` for each parameter, in ascending order of the keys, split by `&` |
| Encoders.SignedTextsDiffer | crates/next-infra-connector-aliyun/src/lib.rs:405-421 | different parameters have different canonical queries and different strings to sign |
| Encoders.SignedParts | crates/next-infra-connector-aliyun/src/lib.rs:412-421 | the text to sign is the method, the encoded root path and the encoded query, split by `&` |
| Encoders.Base64Encode | crates/next-infra-connector-aliyun/src/lib.rs:438-458 | the loop over chunks equals the encoding of the whole |
| Encoders.Base64RoundTrip | crates/next-infra-connector-aliyun/src/lib.rs:438-458 | the decoder of RFC 4648 section 4 undoes the encoding for every byte string, whose length is four times the ceiling of n / 3 |
| Encoders.Base64Alphabet | crates/next-infra-connector-aliyun/src/lib.rs:438-458 | the symbols are those of RFC 4648 section 4, in turn |

## Left out

- Provider HTTP, SQLite, processes, files and the desktop and MCP shells: foreign calls, given as parameters, maps and sets.
- SHA-256, SHA-1, HMAC and UUIDs: digests and ids are taken as injective or fresh.
- The Actions summary join: it rests on SQLite's own functions. Lowering a search text beyond ASCII is not part of this model.
- The filters of the change feed by time, resource and kind: `Cursors.ChangePaging` is for any set of changes a filter leaves.
- Rows, DTOs, descriptors, messages and resource mappers: field copying.
- Limits, depth and page-size checks of the query service: one-branch facts.
- Rejection of malformed timestamps: the parser accepts more than the printer prints; its sums are exact here, so the wrapped product of a hugely negative hour is not modelled.
- Calendar days before March of year 0: timestamps never reach them.
- Topology.BuildTopology: returns nodes and frontier as sets, not in the order of the ordered sets of the source.
- Inference.InferenceEngine.Run: the random id of a run is left out, and relations of a commit form a map, because their order is that of digests.
- GitHubSync.GitHubConnector.Sync: observations are given by their keys; status counts, elapsed times and the check of the connection's configuration are left out, and syncs sharing one page cache at once are not modelled.
- SshLocks.WaiterCanRun: says that a waiter can run soon, not that the mutex is fair to it when new calls keep coming.
- SshBatch.ExecuteProbes: reads the clock once per probe, and says nothing of the time within one.
- Removing and listing scheduled entries: easy beside the rest.
- Completeness of the Aliyun and Tencent DNS fetch and of the Cloudflare outcome: the code does not meet it.
- Runtime lifecycle states, the writer queue, host path checks and secret handling.
