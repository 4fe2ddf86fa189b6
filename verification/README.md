# Aruna, modelled and proved in Dafny

This project models the parts of Aruna that do the most work behind the simplest promises, and proves the promises.

- **Dry-run diffs** (`EditScript`, `Myers`, `Text`, `Hunks`, `UnifiedDiff`, `TextEdits`): the O(ND) search over its
  offset array and the way its script is read back, the hunks, the printed text, and a patch tool that undoes it; and
  the span edits whose result is diffed.
- **The incremental compiler session** (`Paths`, `Analysis`, `TracedReads`, `CleanChecks`, `Caches`, `ProjectGraph`,
  `Session`, `Histories`, `LateReports`, `SessionBinding`, `PendingReports`, `BindingHistories`): every cached fact, the
  session that invalidates them, and the binding's queue, against a clean check of the disk, and what that finds.
- **Retried calls** (`Idempotency`, `RetriedCalls`, `ClientRetry`, `EndToEnd`): the client's retry loop and the server's
  memory of keys, apart and joined, over every run of late, repeated and lost attempts.
- **The binary codec** (`Bytes`, `Utf8`, `Order`, `Schemas`, `BinaryCodec`, `CodecRoundTrip`, `CodecExact`,
  `CodecStream`, `CodecReadback`, `BinaryBuffer`, `BinaryMessages`, `SchemaLayout`, `LayoutParsing`, `EnumLayouts`,
  `WireExamples`, `PayloadSize`, `PayloadLeast`, `PayloadOverflow`): encoding, decoding of arbitrary bytes, the growable
  writer, the layout text and its fingerprint, and the compiler's size bound.
- **Rate limits** (`RateLimit`, `RateBounds`): fixed windows, token buckets, purging, and what they let through.
- **The import graph and path mappings** (`Boundaries`, `SharedSafety`, `WildcardPattern`): boundary rules, the
  backward search for transitive reach, and the star matcher.

`Wrappers` holds `Option` and `Result`. `dafny verify dfyconfig.toml` checks everything.

## How it is modelled

- Objects whose methods update their fields are classes with those fields; loops are loops, proved against
  specification functions, and the promises are lemmas about those functions. Long source functions are split into
  several methods.
- Rust and JavaScript integers are unbounded here. Where a width matters (bytes, the u32 counts and fingerprints of the
  codec, the integer formats) it is written out. Times and rates are reals.
- A Rust `str` in the diff is a sequence of characters; in the edits, the import graph and the codec texts are
  sequences of bytes.
- Parsing, classification, the syntactic analyses and the tsconfig mapping of the compiler are function parameters of a
  `Project`: what is modelled is which files each fact reads, and when it is read again. Content hashes are injective.
  The diagnostics and the manifest are functions of the graph, so they are right when it is.
- The codec's floats are function parameters (`Floats`): eight- and four-byte patterns, each kept by being read, written
  and read again. A promise is the index of the dispatch that made it.

## Findings

Each is a promise the code does not keep for every input, with an input that shows it and the exact condition.

- A cached import resolution is keyed by its file and by the file set, but computing it also probes the disk. One made by
  a check that ran while a listed file was away, unreported, stays in use after the file is back and reported
  (`LateReports.CheckedWhileAway`, and `LateReports.TwoFilesMislead` for the files). A check with everything reported is
  right if and only if no resolution the session remembers misleads so (`Histories.HistoriesAreRightExactly`, with
  `Histories.RunHistory` for what it remembers), and a history whose changes are all reported before the next check
  never meets this (`Histories.ReportedHistoriesAreRight`).
- `apply_pattern` puts one capture more than there are stars at the end of what it builds, when it is given more
  (`WildcardPattern.FillsAndAppends`, `WildcardPattern.TooManyCaptures`); what comes out still matches if and only if the
  last part, with that capture after it, ends in the last part (`WildcardPattern.AppliedMatchesExactly`).
- A fixed window rounds the wait it names down, so a retry at that time can be refused again; exactly when, says
  `RateBounds.FixedRetryIsEarly`, and for the reset time `RateBounds.FixedResetIsFirst`. The token bucket rounds its wait
  up, and keeps its promise.
- What a union decodes need not encode again as it was. It is encoded with the first member it passes, which may check
  less than the member it was decoded by, and then fields are lost (`CodecReadback.LooseMemberLosesField`); or no member
  passes it, as when a float is not finite (`CodecReadback.NonFiniteHasNoMember`). `CodecReadback.DecodedReencodes` says
  exactly which decoded values survive.
- Layout texts of enums run together what stands between their bars: a bar in a value, a number or boolean beside its own
  text, and an empty value make two enums share one (`EnumLayouts.EnumsCollide`); exactly which do, says
  `EnumLayouts.EnumLayoutsMeetExactly`. A mark in a field name runs fields together
  (`LayoutParsing.UncleanLayoutsCollide`), and one in a literal string members of a union
  (`LayoutParsing.UncleanLiteralsCollide`); there the condition proved, that names and literals are clean, is sufficient
  (`LayoutParsing.EqualLayoutsDecodeAlike`).
- Two de-duplication slots can be the same when an action id and a key both hold a newline (`Idempotency.SlotsCanMeet`);
  exactly when, says `Idempotency.SlotsMeetExactly`. Minted keys hold none (`Idempotency.MintedSlotsDiffer`).
- The payload bound is not always the least. A list that may hold nothing, or only items of no bytes, is taken to have no
  bound (`PayloadLeast.CeilingsNotSeen`). With unions told apart, a bound is always reached, and where none is computed
  there is none unless `PayloadSize.Ceiling` finds one (`PayloadLeast.BoundIsMaximum`). A union's bound is not reached
  when an earlier member takes all the values of its largest (`PayloadLeast.LooseUnionStaysBelow`); exactly when it is,
  says `PayloadLeast.UnionReachedExactly`.
- Folding `..` away loses two steps up: a second leading `..` takes back the first, so `../..` becomes the empty path
  (`Paths.TwoStepsUpAreLost`). A relative path keeps its meaning if and only if it never climbs two steps above its start
  (`Paths.RelativeIsKeptExactly`), and an absolute one always does (`Paths.AbsoluteIsKept`).
- The payload bound is summed in 64 bits. At 2^64 it wraps, and a valid value can exceed it
  (`PayloadOverflow.WrappedBoundIsBroken`); it is exact if and only if it is below (`PayloadOverflow.FitsExactly`).

## Model

| member | source | states |
|---|---|---|
| Myers.FurthestIsReached | crates/aruna_migrate/src/diff.rs:30-51 | Each value the search writes is the x of a point that many edits really reach, in the unbounded grid the code walks (points beyond either end included). |
| Myers.FurthestDominates | crates/aruna_migrate/src/diff.rs:32-50 | No path with that many edits gets further along its diagonal. |
| Myers.ReachClamps | crates/aruna_migrate/src/diff.rs:46-48 | A path that left the grid can be pulled back in, one edit cheaper for each step outside. |
| Myers.FirstEndIsCorner | crates/aruna_migrate/src/diff.rs:46-48 | The first time `x >= n && y >= m` holds, it holds with x = n and y = m. |
| Myers.SearchEnds | crates/aruna_migrate/src/diff.rs:30-51 | The search always breaks, at the latest in round n + m. |
| Myers.Round | crates/aruna_migrate/src/diff.rs:30-51 | One round over the array in place leaves the furthest points of that round, and says exactly whether the break test was met. |
| Myers.Search | crates/aruna_migrate/src/diff.rs:27-51 | The trace holds, for each round, the array as it was before it, and ends with the first round that breaks. |
| Myers.ReadBack | crates/aruna_migrate/src/diff.rs:53-82 | The script read back from a trace rewrites `a` into `b`, with as many edits as the last round's number. Each of its steps is, among the scripts that do so and end in the steps after it, of the lowest rank: an insert before a delete before a kept line; and no insert stands directly before a delete. |
| Myers.ScriptReaches | crates/aruna_migrate/src/diff.rs:19-22 | Any script that rewrites `a` into `b` is a path of its cost to the corner, which is why none can be cheaper. |
| Myers.ShortestScript | crates/aruna_migrate/src/diff.rs:22-83 | The script rewrites `a` into `b`, no script that does is cheaper, and of the cheapest it is the one that, read from its end, has inserts as soon as it can, then deletes, then kept lines; so no insert stands directly before a delete. |
| EditScript.PreferredIsOnly | crates/aruna_migrate/src/diff.rs:54-82 | That preference leaves one script: any shortest script that keeps to it is this one. |
| EditScript.PreferredDeletesFirst | crates/aruna_migrate/src/diff.rs:59-78 | A script that keeps to it has no insert directly before a delete. |
| EditScript.ShortestKeepsLongestCommonSubsequence | crates/aruna_migrate/src/diff.rs:19-83 | A shortest script has every index in range, produces `b`, keeps a longest common subsequence and costs n + m - 2 LCS. |
| Text.SplitJoins | crates/aruna_migrate/src/diff.rs:14-17 | Joining the split lines gives the text back. |
| Text.SplitPiecesAreLines | crates/aruna_migrate/src/diff.rs:14-17 | Every piece is a line, and every piece but the last ends with a newline. |
| Text.IsLineExactly | crates/aruna_migrate/src/diff.rs:14-17 | A line is not empty and has a newline, if any, only at its end. |
| UnifiedDiff.Place | crates/aruna_migrate/src/diff.rs:110-127 | Each step carries its operation, its line and exactly the numbers of lines of both files before it. |
| UnifiedDiff.Changed | crates/aruna_migrate/src/diff.rs:129-134 | The list holds exactly the indices of the steps that change something, in order. |
| UnifiedDiff.Grow | crates/aruna_migrate/src/diff.rs:140-146 | A hunk takes in changes until the next is more than two contexts away, and the steps within a context of them are one range. |
| UnifiedDiff.Group | crates/aruna_migrate/src/diff.rs:136-149 | Hunks are ordered, disjoint ranges, and a step is in one exactly when it is within three lines of a change. |
| UnifiedDiff.RenderHunk | crates/aruna_migrate/src/diff.rs:151-162 | The text is the printed form of the hunk with the ranges unified diffs prescribe (a count of zero takes the line before). |
| Hunks.ReadPrintedHunks | crates/aruna_migrate/src/diff.rs:85-91 | A reader of unified diffs reads back from the printed text exactly the hunks printed, missing final newlines included. |
| UnifiedDiff.RenderingPatches | crates/aruna_migrate/src/diff.rs:95-165 | For any script grouped so, patching `before` with the printed diff gives `after`. |
| UnifiedDiff.Render | crates/aruna_migrate/src/diff.rs:93-165 | Patching `before` with the diff gives `after`; the diff is empty exactly when they are equal; otherwise it renders the preferred shortest script, deletes before inserts, in hunks. |
| TextEdits.ApplyEdits | crates/aruna_migrate/src/edits.rs:17-39 | Succeeds exactly when all edits are in range, on character boundaries and do not overlap; then the result is each range replaced, back to front, with everything else kept. |
| TextEdits.SortedDisjointIsChain | crates/aruna_migrate/src/edits.rs:19-32 | On sorted edits, checking each against the end of the one before finds every overlap there is. |
| TextEdits.OrderDoesNotMatter | crates/aruna_migrate/src/edits.rs:15-19 | When no two edits share a range, any order of the same edits gives the same result or the same error. |
| TextEdits.SortIsStable | crates/aruna_migrate/src/edits.rs:18-19 | Edits that share a range keep the order they came in. |
| TextEdits.BoundaryIsExact | crates/aruna_migrate/src/edits.rs:30-32 | In UTF-8 an index is a boundary exactly when the text before it is UTF-8, and then the text after it is too. |
| Paths.NormalizeIdempotent | crates/aruna_compiler/src/cache.rs:44-58 | Normalizing gives a normal form and leaves it alone, so a file has one cache key. |
| Paths.DetourFolds | crates/aruna_compiler/src/cache.rs:44-58 | Going into a directory and out of it again, anywhere on the way, does not change the normal form. |
| Paths.PauseFolds | crates/aruna_compiler/src/cache.rs:48 | Nor does a `.`. |
| Paths.AbsoluteIsKept | crates/aruna_compiler/src/cache.rs:41-58 | The normal form of an absolute path leads where the path leads. |
| Paths.RelativeIsKeptExactly | crates/aruna_compiler/src/cache.rs:49-53 | That of a relative path does, from every directory, if and only if the path never climbs two steps above its start. |
| Paths.TwoStepsUpAreLost | crates/aruna_compiler/src/cache.rs:49-53 | `../..` becomes the empty path. |
| TracedReads.TracedReadsDetermineDiscovery | crates/aruna_compiler/src/schema_metadata.rs:288-305 | Two disks that agree on the recorded dependencies, unreadable candidates among them, give the same result and the same dependencies, though only imports looked up are recorded. |
| TracedReads.ConsultAgrees | crates/aruna_compiler/src/schema_metadata.rs:312-440 | Disks that agree on the candidates consulted are consulted alike. |
| TracedReads.ResolvesAlike | crates/aruna_compiler/src/cache.rs:364-403 | Resolving with some files gives what it gives with all listed files on disk exactly when each first listed candidate is there. |
| CleanChecks.ConsultFindsFirst | crates/aruna_compiler/src/schema_metadata.rs:349-362 | The import hop reads the first candidate that can be read, having consulted those up to it; or none can be, and all were consulted. |
| CleanChecks.NamesAreBound | crates/aruna_compiler/src/schema_metadata.rs:320-428 | A name is bound if some import asks for it, to what the last one that does leads to, under the last of its names there; no other name is. |
| CleanChecks.DependenciesAreConsulted | crates/aruna_compiler/src/schema_metadata.rs:290-305 | Discovery records exactly the files consulted for the imported names it looked up, each once. |
| CleanChecks.FirstFileIsFirst | crates/aruna_compiler/src/resolver.rs:157-180 | An import resolves to the first candidate that is on disk and listed; to nothing exactly when there is none. |
| CleanChecks.CleanCheckIs | crates/aruna_compiler/src/graph.rs:254-618 | A clean check gives a graph exactly when it can read every listed file, and each entry of it is from the text of the file it names, in the order of the list, with each import leading where the row above says; if not, its error is that of a file it could not read. |
| Caches.SourceCache.Get | crates/aruna_compiler/src/cache.rs:75-97 | A read is the disk's as the cache shows it, and reading changes nothing of what the cache shows. The one entry added is the normal form's, and a path with a detour or a `.` in it shares entry and answer with the path without. |
| Caches.SourceCache.Invalidate | crates/aruna_compiler/src/cache.rs:104-106 | Drops the path's normal form and nothing else. |
| Caches.SourceCache.InvalidateUnder | crates/aruna_compiler/src/cache.rs:108-115 | Drops exactly what is at or under the path. |
| Caches.GraphCache.FactFor | crates/aruna_compiler/src/cache.rs:232-247 | The fact is that of the text given, whatever was cached, for all four kinds of keyed facts. |
| Caches.GraphCache.Discovery | crates/aruna_compiler/src/cache.rs:249-299 | Returns what discovery over the shown disk would, and recomputes exactly when the file or a dependency has another hash. |
| Caches.GraphCache.Resolutions | crates/aruna_compiler/src/cache.rs:364-403 | On a hit the cached answer, else what probing the disk gives; either way it is what is kept, with the hashes of the file and the file set, and it is counted when it was computed. |
| Caches.NewDiscoveryHolds | crates/aruna_compiler/src/cache.rs:278-297 | A new entry is right on every later disk on which its hashes hold. |
| Caches.NewResolutionHolds | crates/aruna_compiler/src/cache.rs:374-401 | A new resolution entry is right whenever its keys match if and only if the probes came out as listed when it was made. |
| Caches.AwayAndBack | crates/aruna_compiler/src/cache.rs:364-403 | Asked while listed files are away and again once all are there, an unchanged file gets the fresh answer the second time if and only if the first time's probes came out as listed. |
| Caches.MisleadsExactly | crates/aruna_compiler/src/cache.rs:374-378 | With every listed file on disk, the answer used is the fresh one unless it was made for the same text and files while the first listed candidate of an import was away. |
| ProjectGraph.FactsCached | crates/aruna_compiler/src/graph.rs:307-470 | The discovery pass through the cache gives every file's facts, or the first error, as a pass over the shown disk would. |
| ProjectGraph.ImportsCached | crates/aruna_compiler/src/graph.rs:492-586 | On any disk, the import pass through the cache gives what a pass over the shown disk gives with the cached answers it began with in front of the probing; and it keeps every one of those, and makes the missing ones, no others. |
| ProjectGraph.Build | crates/aruna_compiler/src/graph.rs:254-618 | Building through the cache gives the graph of the shown disk, resolved with the answers cached before in front of the probing. |
| ProjectGraph.GraphsAlike | crates/aruna_compiler/src/graph.rs:492-586 | Two sets of cached answers give one graph if and only if they answer alike for every file, or no graph is made. |
| Session.CompilerSession.Report | crates/aruna_compiler/src/session.rs:46-64 | After a report nothing remembered is out of date about that path, or under it when no file is there; the file list is kept exactly when it is still right. |
| Session.CompilerSession.Update | crates/aruna_compiler/src/session.rs:44-65 | The same for a list of paths. |
| Session.CompilerSession.Check | crates/aruna_compiler/src/session.rs:80-107 | With every change reported, the result is that of a clean check if and only if no cached answer in use misleads, or there is no graph to be had; and a check never makes anything out of date. |
| Session.CompilerSession.Reset | crates/aruna_compiler/src/session.rs:101-105 | After a panic everything starts over, and nothing is out of date. |
| Session.AbsoluteLeadsThere | crates/aruna_compiler/src/session.rs:109-115 | A reported path is remembered under where it leads from the root. |
| Histories.RunHistory | crates/aruna_compiler/src/session.rs:44-107 | Over every history of disk edits, reports, checks and panics, the session begins with nothing remembered, and each event makes of what it remembers, and answers, what the events prescribe: a report drops reads, a panic everything, and a check answers from its remembered reads and resolutions, keeps those in use and makes the missing ones. |
| Histories.MemoryIsCurrent | crates/aruna_compiler/src/session.rs:44-107 | At every point of such a history, what is remembered is out of date only about changes not reported, and each resolution is the one made from its origin. |
| Histories.HistoriesAreRightExactly | crates/aruna_compiler/src/session.rs:44-107 | In every such history, a check with nothing unreported equals a clean check if and only if no remembered resolution misleads for a listed file, having been made for the same text and files while the first listed candidate of an import was away, or there is no graph to be had. |
| Histories.MadeByEarlierCheck | crates/aruna_compiler/src/cache.rs:380-401 | Each remembered resolution was made by an earlier check of the history, from its disk and its file list. |
| Histories.StayingFilesNeverMislead | crates/aruna_compiler/src/session.rs:44-107 | As long as no check runs while a listed file is away, no cached answer misleads. |
| Histories.ReportedHistoriesAreRight | crates/aruna_compiler/src/session.rs:44-65 | When every change is reported before the next check, no check does, so every check of the history equals a clean one. |
| LateReports.CheckedWhileAway | crates/aruna_compiler/src/session.rs:44-107 | In the history of a check, an edit and a file gone unreported, a report of the edit, a check, the file back, its report and a check: the last check is right if and only if no import of the edited file has the file that was away as its first listed candidate. |
| LateReports.GoThrough | crates/aruna_compiler/src/session.rs:44-107 | The session itself, driven through that history, ends so. |
| LateReports.TwoFilesMislead | crates/aruna_compiler/src/cache.rs:364-403 | Two files, the first edited to import the second while that is away, are such a history. |
| SessionBinding.SessionState.RunSession | crates/aruna_napi/src/lib.rs:83-102 | A run takes the whole queue, reports it and checks; when the queue covered every change the result is clean if and only if nothing remembered misleads, or there is no graph to be had; a disposed session refuses and leaves the queue. |
| PendingReports.RunLosesNothing | crates/aruna_napi/src/lib.rs:83-102 | In every interleaving of reports with the steps of runs, each reported path is delivered, held by the run, or queued, in order. |
| PendingReports.CheckGetsEveryEarlierReport | crates/aruna_napi/src/lib.rs:72-102 | A run that takes the queue delivers every path reported before that, and paths reported meanwhile wait for the next. |
| BindingHistories.RunIsGivenEveryReport | crates/aruna_napi/src/lib.rs:72-102 | In every interleaving of disk changes, reports and runs, the session has been through exactly the history of its deliveries and checks, and a run's check has been given every path reported before the run took the queue. |
| BindingHistories.RunsAreRightExactly | crates/aruna_napi/src/lib.rs:72-102 | And if what the run took covers every change not reported before, its check is right if and only if nothing the session remembers misleads, or there is no graph to be had. |
| Idempotency.MintedKeys | packages/aruna/roblox/idempotency.ts:13-35 | Minted keys are accepted, and differ whenever their counters do, whatever the random parts. |
| Idempotency.SlotsMeetExactly | packages/aruna/roblox/idempotency.ts:83-84 | Two calls have one slot if and only if they are one call, or one's id is the other's, a newline and a remainder that the other's key begins with, before another newline and the first one's key. |
| Idempotency.SlotsDiffer | packages/aruna/roblox/idempotency.ts:83-84 | Slots tell calls apart when neither id holds a newline, and when neither key does, whatever the ids are. |
| Idempotency.MintedSlotsDiffer | packages/aruna/roblox/idempotency.ts:13-21 | Calls whose minted keys have different counters or random parts never share a slot, whatever their action ids. |
| Idempotency.SlotsCanMeet | packages/aruna/roblox/idempotency.ts:84-85 | With one, two different calls share a slot. |
| Idempotency.DispatchedKeepsValid | packages/aruna/roblox/idempotency.ts:97-116 | Remembering a dispatch keeps the insertion order in step with the entries, with at most 64. |
| Idempotency.SettledKeepsValid | packages/aruna/roblox/idempotency.ts:118-129 | So does settling, for a call that ran and for one refused before running. |
| Idempotency.IdempotencyCache.Run | packages/aruna/roblox/idempotency.ts:83-131 | Joins the remembered promise of a live entry, else dispatches; the new entries follow from the old ones, and departed players leave none. |
| Idempotency.IdempotencyCache.Settle | packages/aruna/roblox/idempotency.ts:118-128 | Only the entry of that very promise is marked settled, or forgotten if the handler was not reached. |
| RetriedCalls.AttemptSharesResult | packages/aruna/roblox/idempotency.ts:89-96 | In every run, while a dispatch is live, not forgotten and fewer than 64 newer ones of its player were made, an attempt on its slot joins it and changes nothing. |
| RetriedCalls.JoinedIsLive | packages/aruna/roblox/idempotency.ts:86-96 | In any run an attempt joins only a dispatch of its own player, action and key that is in flight, or reached its handler and settled at most twenty seconds ago. |
| RetriedCalls.TwoDispatchesHaveAReason | packages/aruna/roblox/idempotency.ts:82-131 | In every run, two dispatches of one slot have one of the named reasons between them: departure, forgetting, refusal, expiry or eviction. |
| RetriedCalls.RetriedCallRunsOnce | packages/aruna/roblox/idempotency.ts:50-60 | After a remembered dispatch, with the player neither leaving nor forgotten since, another dispatch of its slot within the TTL and with fewer than 64 of the player's calls in between means that the first settled without reaching its handler. |
| RetriedCalls.RetriedCallSharesResult | packages/aruna/roblox/idempotency.ts:82-131 | And every attempt in that time after a dispatch that is in flight or ran is given its promise. |
| ClientRetry.InvokeLaws | packages/aruna/roblox/client-runtime.ts:329-392 | At most maxRetries + 1 attempts, all with one key; each but the last was retryable, the last was not; the result is the last attempt's. |
| ClientRetry.RefusalsAreRetried | packages/aruna/roblox/client-runtime.ts:281-297 | By default an attempt is followed by another exactly when it was rejected with a wait or the rate-limit name, or, of an idempotent call only, timed out, and a retry is left, the rejection is no cancellation and the signal is not cancelled. |
| ClientRetry.OnlyRefusalsAreRepeated | packages/aruna/roblox/client-runtime.ts:281-284 | So a call that is not idempotent is sent again only after the server refused it, and of its attempts only the last can have timed out. |
| ClientRetry.CustomRuleDecides | packages/aruna/roblox/client-runtime.ts:350-383 | A rule of the caller's decides instead, asked with the rejection and the number of the attempt to come. |
| ClientRetry.WaitsExactly | packages/aruna/roblox/client-runtime.ts:299-315 | The first attempt goes out at once; each later one after the wait its rejection asks for, when that is heeded, or the base delay doubled once for each retry before, and never longer than the cap. |
| ClientRetry.WaitsAreCapped | packages/aruna/roblox/client-runtime.ts:301-315 | No wait is negative or above the maximum. |
| ClientRetry.CancelledStaysOffTheWire | packages/aruna/roblox/roblox.ts:486-494 | No attempt follows one that ended with the signal cancelled; one cancelled while the loop sleeps makes a last attempt that never touches the wire, and the call ends as cancelled. |
| EndToEnd.AttemptsShareSlot | packages/aruna/roblox/client-runtime.ts:344-363 | Every request a retried call puts out is for one slot, with a key the server accepts. |
| EndToEnd.RepeatedAfterRefusal | packages/aruna/roblox/client-runtime.ts:281-297 | A call that is not idempotent puts out a further request only after the server refused the one before. |
| EndToEnd.NoCallRunsTwice | packages/aruna/roblox/idempotency.ts:50-60 | Over every run in which the network only loses, delays, repeats and reorders the requests of a player's retried calls, two dispatches whose handlers ran are two calls', unless the first was dropped or outlived: departure, forgetting, the TTL or 64 calls in between. |
| EndToEnd.AttemptsShareOnePromise | packages/aruna/roblox/idempotency.ts:82-96 | While a call's dispatch is remembered, a request is given its promise if and only if it is that call's. |
| BinaryCodec.CodeIsExact | packages/aruna/roblox/binary.ts:78-106 | Every number format's bit pattern fits its width, and reads back as the number rounded to the format; whole numbers in range are kept, signed ones included. |
| Bytes.LittleDigits | packages/aruna/roblox/binary.ts:60-94 | Numbers are written with the byte of 256^i at place i. |
| WireExamples.WholeNumbersWrap | packages/aruna/roblox/binary.ts:79-108 | A whole number is written as itself modulo two to its width in bits. |
| WireExamples.ScalarsWrittenOut | packages/aruna/roblox/binary.ts:111-119 | Flags, optional values, enum members and strings are these bytes. |
| WireExamples.ListWrittenOut | packages/aruna/roblox/binary.ts:240-248 | A list has its length in front. |
| WireExamples.TupleWrittenOut | packages/aruna/roblox/binary.ts:290-303 | A tuple has not. |
| WireExamples.UnionWrittenOut | packages/aruna/roblox/binary.ts:319-338 | A union's value has the index of its member in front. |
| WireExamples.OnlyZeroIsFalse | packages/aruna/roblox/binary.ts:207-209 | Any byte but zero is read as true, and as a value that is there. |
| CodecRoundTrip.RoundTrip | packages/aruna/roblox/binary.ts:229-527 | A value of a supported schema encodes, and decoding the bytes, whatever follows them, gives what the codec keeps of it and leaves what follows. |
| CodecExact.KeptIsExact | packages/aruna/roblox/binary.ts:229-388 | What is kept is the value itself exactly when its floats fit, its tables hold nothing the schema does not name, and in unions this holds for the first member that validates; and no value is dropped or made up. |
| CodecExact.KeptFields | packages/aruna/roblox/binary.ts:411-427 | Of an object exactly the fields its schema names and the value has are kept. |
| CodecExact.ExactRoundTrip | packages/aruna/roblox/binary.ts:229-527 | Decoding an encoding gives the value back if and only if it is exact. |
| CodecStream.TrailingBytesDoNotMatter | packages/aruna/roblox/binary.ts:128-218 | On arbitrary bytes, more bytes change neither the value read nor any error but running past the end. |
| CodecStream.PrefixIsRejected | packages/aruna/roblox/binary.ts:136-144 | Fewer bytes than a value took are rejected for ending too soon, whatever the bytes. |
| CodecStream.TruncatedEncodingIsRejected | packages/aruna/roblox/binary.ts:136-144 | So is every strict prefix of an encoding. |
| CodecReadback.DecodedReencodes | packages/aruna/roblox/binary.ts:390-527 | Whatever is decoded encodes again if and only if it fits, each union in it finding a member that validates, and decodes back to itself if and only if it is besides exact for those members; without unions always. |
| CodecReadback.LooseMemberLosesField | packages/aruna/roblox/binary.ts:319-338 | With a union it need not: a value one member fully describes is encoded by an earlier, looser one without its field. |
| CodecReadback.NonFiniteHasNoMember | packages/aruna/roblox/binary.ts:319-338 | Nor need there be a member: a pattern that is no finite number decodes by a union of floats, and no member encodes it. |
| BinaryBuffer.BinaryWriter.Ensure | packages/aruna/roblox/binary.ts:39-52 | Room is made, the contents stay, doubling ends, and all bytes ever copied are at most what the capacity has grown by. |
| BinaryBuffer.BinaryWriter.Write | packages/aruna/roblox/binary.ts:54-119 | Any write appends its bytes to the contents, whether or not the buffer had to grow. |
| BinaryBuffer.BinaryReader.ReadBytes | packages/aruna/roblox/binary.ts:136-144 | A read takes the next bytes and moves past them, or fails; it never goes past the end. |
| BinaryBuffer.BinaryReader.ReadString | packages/aruna/roblox/binary.ts:211-217 | A string read agrees with reading from the bytes that are left. |
| Order.BeforeExactly | packages/aruna/roblox/binary.ts:220-227 | One text is before another exactly when it is a proper prefix of it, or smaller at the first byte where they differ. |
| BinaryMessages.SortedKeys | packages/aruna/roblox/binary.ts:220-227 | Whatever order a table gives its keys in, the sorted list is the same: it has just these keys, and of two of them the earlier is a proper prefix of the later or smaller at the first byte where they differ. |
| BinaryMessages.EncodeValue | packages/aruna/roblox/binary.ts:229-388 | Through the writer: appends exactly the specified encoding, or fails with the specified error. |
| BinaryMessages.DecodeValue | packages/aruna/roblox/binary.ts:390-527 | Through the reader: on any bytes, the specified value and the specified bytes left, or the specified error. |
| BinaryMessages.EncodeBinary | packages/aruna/roblox/binary.ts:647-652 | The message is the fingerprint and then the encoding. |
| BinaryMessages.DecodeBinary | packages/aruna/roblox/binary.ts:654-662 | A message with another fingerprint is refused before anything is decoded. |
| BinaryMessages.MessageRoundTrip | packages/aruna/roblox/binary.ts:647-662 | A valid value's message decodes to what is kept of it, to the value itself exactly when it is exact, and anything appended is ignored. |
| BinaryMessages.TruncatedMessageIsRejected | packages/aruna/roblox/binary.ts:654-662 | Every strict prefix of a message is rejected. |
| SchemaLayout.SchemaFingerprint | packages/aruna/roblox/binary.ts:634-645 | The hash loop gives the base-33 polynomial of the layout text modulo 2^32, and every step stays below 2^53. |
| WireExamples.PlayerFingerprint | apps/roblox-runtime-test/src/test/binary.spec.ts:199-207 | The fingerprint of the schema the runtime's tests pin is the number they pin. |
| WireExamples.LayoutsWrittenOut | packages/aruna/roblox/binary.ts:545-632 | The layout texts of an optional, a record, an enum and a literal are these. |
| WireExamples.ListLayoutsWrittenOut | packages/aruna/roblox/binary.ts:585-611 | So are those of a tuple and a union. |
| WireExamples.NameTellsFormat | packages/aruna/roblox/binary.ts:552-553 | A number format's name is a letter for its kind and its width in bits. |
| LayoutParsing.LayoutIsUnique | packages/aruna/roblox/binary.ts:529-632 | For clean names and literals a layout can be told apart from whatever may follow it, and determines the wire format. |
| LayoutParsing.SameWireDecodesAlike | packages/aruna/roblox/binary.ts:390-527 | Schemas with one wire format decode every buffer alike. |
| LayoutParsing.EqualLayoutsDecodeAlike | packages/aruna/roblox/binary.ts:545-632 | So clean schemas with equal layout texts do. |
| LayoutParsing.NumbersCanBeWritten | packages/aruna/roblox/binary.ts:536-538 | There is a way to write numbers as those two ask: in words, and those a double can hold each differently. |
| LayoutParsing.SameWireSameLayout | packages/aruna/roblox/binary.ts:545-632 | Schemas that differ only in what they check have equal layout texts. |
| LayoutParsing.UncleanLayoutsCollide | packages/aruna/roblox/binary.ts:568-575 | With marks in a field name objects of one and of two fields share a layout text, and a buffer the one decodes the other rejects. |
| LayoutParsing.UncleanLiteralsCollide | packages/aruna/roblox/binary.ts:602-611 | With a mark in a literal string unions of one and of two members share a layout text, and a buffer the one decodes the other rejects. |
| EnumLayouts.EnumLayoutsMeetExactly | packages/aruna/roblox/binary.ts:596-601 | Only an enum has an enum's layout text, and two enums share one if and only if the words between their bars are the same, wherever the bars came from and whatever scalars the words were written from. |
| EnumLayouts.OwnLayoutExactly | packages/aruna/roblox/binary.ts:596-601 | An enum has its layout text to itself if and only if it has one value, without a bar, not empty, and written as no other value is. |
| EnumLayouts.EnumsCollide | packages/aruna/roblox/binary.ts:596-601 | A bar in a value, a number beside its own text, and an empty value each give two enums one text, and buffers they decode differently. |
| PayloadSize.EncodingIsBounded | crates/aruna_compiler/src/payload_size.rs:40-104 | When the compiler computes a bound, summed without overflow, every valid value encodes to at most that many bytes. |
| PayloadLeast.TextsReachLimit | crates/aruna_compiler/src/payload_size.rs:40-49 | Where texts are limited, some text the schema admits has exactly the most bytes there may be; where they are not, some has any number. |
| PayloadLeast.BoundIsMaximum | crates/aruna_compiler/src/payload_size.rs:51-104 | For schemas whose refinements accept everything and whose unions tell their members apart, some valid value takes exactly the computed bound, and where none is computed values take more than any size; but for the schemas that have a ceiling the compiler does not see, whose values take at most that and some exactly that. |
| PayloadLeast.CeilingIsMaximum | crates/aruna_compiler/src/payload_size.rs:51-104 | For all of those schemas, the ceiling is the most bytes a valid value takes, and without one there is no most. |
| PayloadSize.CeilingBounds | crates/aruna_compiler/src/payload_size.rs:69-73 | No valid value of any schema takes more than the ceiling. |
| PayloadSize.BoundIsCeiling | crates/aruna_compiler/src/payload_size.rs:57-104 | A bound the compiler computes is the ceiling. |
| PayloadLeast.CeilingsNotSeen | crates/aruna_compiler/src/payload_size.rs:69-73 | Lists of texts that may hold none, and lists of any number of literals, take four bytes; nothing bounds them for the compiler. |
| PayloadLeast.UnionReachedBy | crates/aruna_compiler/src/payload_size.rs:86-92 | Any union's bound is reached when its largest member validates a largest value that no earlier member does. |
| PayloadLeast.UnionReachedExactly | crates/aruna_compiler/src/payload_size.rs:86-92 | And it is reached only so: if and only if some member has a value that no earlier one validates and that takes as many bytes as any member's may. |
| PayloadLeast.LooseUnionStaysBelow | crates/aruna_compiler/src/payload_size.rs:86-92 | When an earlier member takes all the values of the largest it is not: of twelve bytes the values of one union take four. |
| PayloadOverflow.FitsExactly | crates/aruna_compiler/src/payload_size.rs:57-104 | The bound in 64-bit sums and products is there when the exact one is, and equals it if and only if that is below 2^64. |
| PayloadOverflow.ComputedBoundHolds | crates/aruna_compiler/src/payload_size.rs:57-104 | So below 2^64 the computed number bounds every encoding. |
| PayloadOverflow.WrappedBoundIsBroken | crates/aruna_compiler/src/payload_size.rs:69-73 | Lists of 2^31 lists of 2^31 - 1 numbers get the bound 4, and a list of one empty list takes eight bytes. |
| PayloadSize.EstimateIsSignalBytes | crates/aruna_compiler/src/payload_size.rs:25-38 | The compiler's count for a signal equals the runtime's estimate of its frame. |
| PayloadSize.BoundDominatesEstimate | packages/aruna/roblox/network-metrics.ts:137-169 | The runtime's estimate of a signal with a valid payload never exceeds what the compiler counted from the schema, counted exactly. |
| PayloadOverflow.TotalFitsExactly | crates/aruna_compiler/src/payload_size.rs:36-38 | The count in 64-bit sums equals the exact one if and only if that is below 2^64. |
| PayloadOverflow.ComputedTotalDominates | packages/aruna/roblox/network-metrics.ts:137-169 | Then the estimate never exceeds the 64-bit count. |
| Utf8.CharsAreShort | crates/aruna_compiler/src/payload_size.rs:40-49 | A text of n characters has at most 4n bytes. |
| Utf8.CharCountIsExact | packages/aruna/roblox/schema.ts:224-231 | A text has n characters if and only if it is the encoding of n code points. |
| Schemas.TagsDispatch | packages/aruna/roblox/schema.ts:539-567 | A discriminated union validates a value exactly when the first member with its tag does. |
| RateLimit.IdleIsFresh | packages/aruna/roblox/rate-limit.ts:56-62 | Checking a bucket at or after the time it goes idle is checking none at all. |
| RateLimit.RateIsMaxPerWindow | packages/aruna/roblox/rate-limit.ts:98-99 | A window is as many milliseconds long as its option says, and in its time exactly max tokens come back. |
| RateLimit.ActionRateLimiter.PurgeIdle | packages/aruna/roblox/rate-limit.ts:124-135 | Exactly the idle buckets go, and their number is returned. |
| RateLimit.ActionRateLimiter.Check | packages/aruna/roblox/rate-limit.ts:138-153 | The answer and the new bucket are the strategy's, on what is left after the purge that is due. |
| RateLimit.PurgingIsInvisible | packages/aruna/roblox/rate-limit.ts:120-158 | In every run, purging, opportunistic or asked for, changes no answer of either strategy. |
| RateBounds.LimiterBoundsTokenBuckets | packages/aruna/roblox/rate-limit.ts:92-118 | In every run and every interval a token bucket admits at most max calls plus what comes back in that time at max per window. |
| RateBounds.RetryAfterIsEnough | packages/aruna/roblox/rate-limit.ts:116-117 | A refused call is admitted at the time its refusal named, or later, whatever refused calls come in between. |
| RateBounds.LimiterAdmitsRetries | packages/aruna/roblox/rate-limit.ts:92-158 | In every run of the limiter, purging as it goes, a call refused by a token bucket and any refused after it do not keep a call at the time the refusal named, or later, from being admitted. |
| RateBounds.TokenBucketIsExact | packages/aruna/roblox/rate-limit.ts:92-118 | After any checks of a token bucket a call is refused if and only if admitting it would put more calls into some interval ending there than max plus what comes back in it. |
| RateBounds.RetryAfterIsLeast | packages/aruna/roblox/rate-limit.ts:116-117 | The wait a token bucket names is the least whole number of milliseconds after which a retry is admitted. |
| RateBounds.ResetIsFirst | packages/aruna/roblox/rate-limit.ts:116-117 | The reset time it names is its wait after the whole millisecond of the refusal: no call is admitted at an earlier whole millisecond, and every one is at a later. |
| RateBounds.LimiterBoundsFixedWindows | packages/aruna/roblox/rate-limit.ts:64-87 | In every run a fixed window admits exactly as many calls in each aligned window as fall in it, up to max, and at most twice max in any interval as long as a window. |
| RateBounds.FixedRetryIsEarly | packages/aruna/roblox/rate-limit.ts:79-83 | A retry at the time a fixed window named is admitted if and only if a whole number of milliseconds was left. |
| RateBounds.FixedResetIsFirst | packages/aruna/roblox/rate-limit.ts:78-80 | Of whole milliseconds, calls are admitted again after the reset time a full window names, and at it exactly when the window ends on a whole millisecond. |
| RateBounds.FixedRetryCanBeRefused | packages/aruna/roblox/rate-limit.ts:79-83 | Half a millisecond before the end the wait named is zero. |
| Boundaries.CodesForbidExactly | crates/aruna_compiler/src/rules.rs:28-59 | An import gets no code exactly when the importer may load that kind of code. |
| Boundaries.CodesNameTheCrossing | crates/aruna_compiler/src/rules.rs:42-58 | Each code stands for one crossing of sides. |
| Boundaries.BoundaryDiagnostics | crates/aruna_compiler/src/compiler.rs:171-212 | The edge loop reports each runtime edge that gets a code, in order, and nothing exactly when there is none. |
| Boundaries.LocalRulesIsolate | crates/aruna_compiler/src/compiler.rs:171-212 | No edge is reported if and only if no import path of any length links client to server code, server to client, code of neither side to either, or game code to a spec. |
| SharedSafety.RuntimeEdges | crates/aruna_compiler/src/shared_safety.rs:328-346 | The two maps hold exactly the runtime edges between project modules, with the first import of each. |
| SharedSafety.Search | crates/aruna_compiler/src/shared_safety.rs:350-373 | The search ends with every label justified by a next step one closer, and every shared importer of a labelled module labelled. |
| SharedSafety.LabelsAreLeast | crates/aruna_compiler/src/shared_safety.rs:350-373 | Labels are shortest distances, and every module that reaches the side has one. |
| SharedSafety.ChainFrom | crates/aruna_compiler/src/shared_safety.rs:386-391 | Following `next` ends, and gives a chain of exactly the labelled length. |
| SharedSafety.TransitiveDiagnostics | crates/aruna_compiler/src/shared_safety.rs:319-400 | Reports, side by side and in order, exactly the shared or unclassified modules whose shortest chain to the side has two imports or more, each with such a shortest chain and its first import. |
| SharedSafety.ChainEndsInViolation | crates/aruna_compiler/src/shared_safety.rs:5-14 | The last import of every chain is one the boundary rules report, as 302 or 303 by side. |
| SharedSafety.ChainIsForbiddenPath | crates/aruna_compiler/src/shared_safety.rs:5-14 | Every chain is an import path from a module that may not load the code at its end. |
| SharedSafety.NothingTransitiveAlone | crates/aruna_compiler/src/shared_safety.rs:5-14 | A project the boundary rules pass, or in which no import path crosses sides, gets no transitive report. |
| WildcardPattern.SplitIsExact | crates/aruna_compiler/src/resolver.rs:191-193 | Splitting at the stars loses nothing and leaves no star in a part. |
| WildcardPattern.FirstIsEnough | crates/aruna_compiler/src/resolver.rs:210-215 | Taking the first occurrence of a middle part loses no match. |
| WildcardPattern.MatchPattern | crates/aruna_compiler/src/resolver.rs:182-227 | Returns captures exactly when some captures make the pattern the input, and the ones returned do. |
| WildcardPattern.ApplyPattern | crates/aruna_compiler/src/resolver.rs:229-245 | The loop builds the spliced text. |
| WildcardPattern.FillsAndAppends | crates/aruna_compiler/src/resolver.rs:229-245 | The spliced text is the pattern with each star filled, missing captures empty, and the next capture at the end when there are more than stars. |
| WildcardPattern.MatchingInvertsApplying | crates/aruna_compiler/src/resolver.rs:182-245 | An input matches if and only if applying the pattern to some captures, no more than it has stars, gives it. |
| WildcardPattern.AppliedMatchesExactly | crates/aruna_compiler/src/resolver.rs:229-245 | What filling any captures gives matches the pattern if and only if the last part, with the capture put after it, if any, ends in the last part. |
| WildcardPattern.TooManyCaptures | crates/aruna_compiler/src/resolver.rs:236-242 | With one capture more, the result need not match. |

## Left out

- WildcardPattern.ApplyPattern: its contract ties the loop to the splicing function; what that means is in FillsAndAppends.
- SharedSafety.TransitiveDiagnostics: the wording of a report is not modelled, only its side, chain and first import.
- Histories.RunHistory: the disk does not change during a check, and the configuration and tsconfig never change in a session.
- UnifiedDiff.Render: the reader of diffs is one file's, takes any line that starts with a backslash for the marker, and is told the path to expect.
- PayloadSize.EncodingIsBounded: about the exact sum; what 64 bits make of it is in PayloadOverflow, with the wrapping of a release build.
- PayloadLeast.BoundIsMaximum: for refinements that accept everything, enums and unions that are not empty, and limits below 2^32; values without a bound are shown to pass every size below 2^32.
- Paths.AbsoluteIsKept: where a path leads by its components; symbolic links are not followed.
- LayoutParsing.EqualLayoutsDecodeAlike: for clean names and literals, among them number literals that a double can hold; outside them the exact condition is proved for enums only.
- CodecReadback.DecodedReencodes: not for tuples with an item that may be left out, whose decoded list closes the gap.
- EndToEnd.NoCallRunsTwice: for calls whose key `withRetry` mints, where calls of different joins with one counter have different random parts; a caller may also choose keys of its own.
- RateBounds.LimiterBoundsTokenBuckets: each bucket id has one set of options, with max at least one, and the clock never goes back.
- RetriedCalls.RetriedCallRunsOnce: a dispatch does not call back into the cache, and the clock never goes back.
- Mapping symlinked roots back in `absolute`; error texts of failed reads; the files a check writes.
- The four maps of keyed facts are one map keyed by kind and path, and discovery is a program with a bounded number of lookups, so a schema constant that refers to itself is not modelled.
- Cancel tokens and timers of the client beyond what a signal says before and after an attempt, and how a dispatch runs its middleware: a run only says whether the handler was reached and when the promise settled.
- Schemas with a missing part (an array without an item, and the like), which the types here cannot express; the encoder's behaviour on values its schema does not describe.
- A nil pushed onto a Luau list leaves it as it is, so lists never hold undefined values.
- NaN and infinities are opaque numbers that no schema validates; engine types are their components, so a BrickColor is its number.
- `default` and `instance` schemas beyond the errors they raise; the order in which `estimateWireBytes` visits a table, which cannot change its sum.
- Module classification, domains, severities, suggestions, the unresolved-import and service reports, and the wording of every diagnostic: easy members.
- Action, signal, store and resource runtimes, the DataStore adapter, code generation, manifests, the CLI, packaging and release scripts.
