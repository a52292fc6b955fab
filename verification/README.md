# KiwiGuard verification

A Dafny model of the parts of KiwiGuard, a guardrail gateway for LLM traffic, that hold state,
arithmetic or a promise about every run. `dafny verify dfyconfig.toml` checks all of it.

- **Event spool and delivery** (`SpoolNames`, `SpoolLog`, `SpoolDisk`, `SpoolSpec`, `FileSpool`,
  `Delivery`, `Pipeline`, `Replay`, `DeliveryChain`). The spool directory is a map from names to files
  with a log of file steps. Every system call may fail, and a process that dies is one whose remaining calls all fail, so a
  crash between any two file steps is a failing run of the same method. `SpoolLog` says which steps are
  safe and proves that no log of safe steps loses a record; the methods of `FileSpool` take only safe
  steps, from any directory they may find; `Replay.Interleave` lets processes take turns in any order.
  An expiry names the call of the clock and the configured age that justify it, and the sinks and the
  spool record what they refuse, so a refusal cannot be claimed without an attempt.
  `DeliveryChain.Run` lets any number of pipelines and replay workers take turns on one directory and says
  where each accepted event is.
- **Policy** (`Detection`, `Policy`, `Evaluation`, `PolicyRefinement`, `PolicyOutcome`, `CacheClash`,
  `Canonical`, `CanonicalMeaning`).
  Compiling bundles into a scope index, evaluating requests through it with a findings cache, and the
  canonical form behind the snapshot hash, against a plain scan of the rules.
- **Redaction** (`Utf8`, `Redaction`, `TextTree`, `Segments`, `Extractors`, `Documents`,
  `TextPaths`, `BodyRedaction`). A JSON tree is flattened to joined text with offsets, spans over that
  text are clipped per string, merged and spliced, and the results go back in place. A setter closure is the path of the string it assigns.
- **Streaming** (`Sse`, `SseText`, `StreamBuffer`, `Streaming`). Frame splitting, the detection window, the bounded
  collector and the loop that holds one frame back.
- **Admission** (`RateLimits`, `Admission`, `Exchange`). The fixed-window limiter, the concurrency
  reservations and their release on every exit of an exchange.
- **Configuration** (`Revisions`, `Runtime`, `Clone`, `DraftClone`, `VerdictBindings`). Draft, active and rejected
  revisions, the token that names what is served, cloning a revision row by row, and the choice of a
  verdict provider per route.

`Options`, `Strings`, `Lists`, `Sorting` and `Events` are shared helpers. Collaborators that the code gets
from outside are function-valued parameters: the regular-expression engine, the clock, which system calls
and sink or client writes fail, payload sizes, the policy's answer for a window, compilation of a runtime
configuration. Every theorem therefore holds for all of them.

What an operation computes is stated a second time without the functions it is computed with, so that
these are not taken on trust: names as decimal numbers and characters (`SpoolNames.RecordIdReads`), inspected
places as member names and positions (`TextPaths`), decisions as rules and actions (`PolicyOutcome`), the end
of a stream as the policy's answers (`Streaming.Justified`), transactions as columns (`Revisions`), delivery as
events in files and batches (`DeliveryChain.Somewhere`), frames as lines (`SseText`), clones as references per
table (`Clone.CopyLeadsTo`).

Where the code does not meet the property one would like, the model keeps the code:

- A claim is stale by the age of the record's last write, not of the claim
  (`SpoolSpec.ClaimsKeepTheirAge`), so nothing here relies on a claim being exclusive.
- Records of different processes can share an identifier; exactly when is `SpoolLog.SameId`. An event can
  then be overwritten: `FileSpool.Collide` does it with two processes and no failing call. Nothing is lost
  in any run over a set of events if and only if different events of the set have different ids once these
  are made fit for a file name (`SpoolLog.NoLossExactly`).
- The byte limit holds for an append unless a call failed while the directory was measured: such a failure is
  swallowed, and a listing that fails counts as no bytes. `FileSpool.OverLimit` stores beyond the limit so.
- Record names sort by sequence number up to sixteen digits; beyond that `SpoolNames.SequenceOrder` gives
  the exact condition and `SpoolNames.OrderBreaks` the first failing pair.
- `originalRecordPath` undoes `claimPath` exactly for paths free of the marker
  (`SpoolNames.OriginalInvertsClaim`).
- The findings cache answers right if and only if detectors that share a cache key are equal
  (`Evaluation.FaithfulExactly`). For bundles with given keys it never changes a decision if and only if the
  keys are distinct and none starts with another one and a slash (`CacheClash.CacheIsSafeExactly`);
  otherwise `CacheClash.ClashChangesAction` gives bundles and a request that the scan blocks and the cached
  evaluation allows. For one given list of bundles an unfaithful cache may still leave every decision as it
  is, when wrong answers cancel out or the rules concerned match no common request.
- The detection window misses a stretch exactly when some delta is not gentle
  (`StreamBuffer.WindowComplete`).
- Requests at the zero time are never limited (`RateLimits.ZeroTimeUnlimited`); for other clocks the
  interval bound is one below N(⌈L/W⌉+1).
- A frame split loses nothing exactly while every piece of the input fits the size limit up to the end or a
  done frame (`Sse.EofExactly`).
- A clone fails exactly when a row of the source refers to a row of another revision
  (`Clone.Database.CloneRevision`).

## Model

| member | source | states |
|---|---|---|
| SpoolLog.StepKeepsRecord | internal/contexts/traffic/adapters/events/spool_claims.go:110-127 | a safe file step keeps some file of a record, unless it acknowledges a delivered record or purges one that has reached a positive age at a time read from the clock |
| SpoolLog.LogIsSound | internal/contexts/traffic/adapters/events/spool.go:129-317 | after every safe log each file holds the record its name says under an identifier made from its own time and event, and each record ever committed has a file, was accepted or expired by age |
| SpoolLog.NoLoss | internal/contexts/traffic/adapters/events/spool.go:129-317 | no loss over all runs: if different events handed over have different cleaned ids, each committed event is in a file, was accepted by the primary sink, or was purged when the clock showed that it had reached the maximal age |
| SpoolLog.PrefixSafe | internal/contexts/traffic/adapters/events/spool_records.go:16-49 | a crash at any point leaves a safe log, so the above holds at every crash point |
| SpoolLog.CollisionLoses | internal/contexts/traffic/adapters/events/spool_records.go:41-43 | two events with one cleaned id, stored at one instant under one number: a safe log from the empty directory that loses the first |
| SpoolLog.NoLossExactly | internal/contexts/traffic/adapters/events/spool_records.go:110-117 | every run over a set of events loses nothing if and only if different events of the set have different cleaned ids |
| SpoolLog.PlainIdsNeverLost | internal/contexts/traffic/adapters/events/spool_records.go:110-117 | events whose ids are not empty, free of `/`, `\` and `:` and pairwise different are never lost in any run |
| SpoolLog.SameId | internal/contexts/traffic/adapters/events/spool_records.go:110-117 | two records share an identifier exactly when they share time, sequence number and cleaned event id |
| FileSpool.Collide | internal/contexts/traffic/adapters/events/spool.go:129-189 | two processes on one directory, no call failing, both told that their event is stored: one event is lost |
| SpoolNames.RecordIdOrder | internal/contexts/traffic/adapters/events/spool_records.go:110-117 | identifiers sort by (time, sequence) for non-negative times and sequences below 10^16 |
| SpoolNames.SequenceOrder | internal/contexts/traffic/adapters/events/spool_records.go:110-117 | for sequences of any length, the earlier one sorts first exactly if it does not exceed the leading digits of the later one |
| SpoolNames.OrderBreaks | internal/contexts/traffic/adapters/events/spool_records.go:110-117 | 10^16 sorts before its predecessor |
| SpoolNames.RecordIdUnique | internal/contexts/traffic/adapters/events/spool_records.go:110-117 | identifiers are equal exactly for equal time, sequence and cleaned event id |
| SpoolNames.RecordIdReads | internal/contexts/traffic/adapters/events/spool_records.go:110-117 | an identifier can be read back: the time in nanoseconds in at least twenty places, the sequence number in at least sixteen, and the event id with `/`, `\` and `:` made underscores and every other character kept; no id at all reads "event" |
| SpoolNames.ClaimReads | internal/contexts/traffic/adapters/events/spool_claims.go:59-62 | a claim's path shows the record's path without .json, the process and the number, in decimal |
| SpoolNames.OriginalInvertsClaim | internal/contexts/traffic/adapters/events/spool_claims.go:59-69 | restoring a claimed path gives the path back if and only if it ends in .json and does not contain the marker |
| SpoolNames.ClaimUnique | internal/contexts/traffic/adapters/events/spool_claims.go:59-62 | claim paths of marker-free records are told apart by record, process and number |
| SpoolDisk.Disk.CreateTemp | internal/contexts/traffic/adapters/events/spool_records.go:18-40 | a temporary file appears whole under a new name, or the call failed and nothing changed |
| SpoolDisk.Disk.Rename | internal/contexts/traffic/adapters/events/spool_claims.go:32-57 | a rename moves the file with its age, reports a missing source, or fails without effect; the log stays safe |
| SpoolDisk.Disk.Remove | internal/contexts/traffic/adapters/events/spool.go:266-269 | a removal is allowed for a copy, a delivered record, or a record that has reached a configured age at the time some earlier call of the clock showed |
| SpoolSpec.RecoverAllExact | internal/contexts/traffic/adapters/events/spool_claims.go:71-127 | whatever the directory order, recovery commits the record of every stale claim, drops stale claims and changes nothing else |
| SpoolSpec.PurgeAllExact | internal/contexts/traffic/adapters/events/spool_records.go:82-107 | the purge removes exactly the committed records created at or before the cutoff |
| SpoolSpec.SettledExactly | internal/contexts/traffic/adapters/events/spool.go:139-150 | what recovery and purge leave, name by name: committed records and recovered claims younger than the one cutoff, claims written after the other, and nothing else |
| SpoolSpec.StoreAllExact | internal/contexts/traffic/adapters/events/spool.go:180-187 | writing records commits each of them, touches no other name, and adds at most their bytes |
| SpoolSpec.AppendedExactly | internal/contexts/traffic/adapters/events/spool.go:151-187 | each event of a stored append is in a committed file with no retries, whose name reads the time, the next number and the event id |
| SpoolSpec.NewRecordsDistinct | internal/contexts/traffic/adapters/events/spool.go:151-170 | the records of one Append have distinct identifiers |
| SpoolSpec.ClaimAllExact | internal/contexts/traffic/adapters/events/spool.go:219-244 | claiming a list moves exactly these records to their claims |
| SpoolSpec.BatchExactly | internal/contexts/traffic/adapters/events/spool.go:219-244 | a batch shows identifier, event, time, retries and last error of the records it claims, in order and under numbers in turn |
| SpoolSpec.FailRestores | internal/contexts/traffic/adapters/events/spool.go:278-317 | a batch claimed and then failed is committed again, one retry later and otherwise unchanged |
| SpoolSpec.FailedExactly | internal/contexts/traffic/adapters/events/spool.go:278-317 | after a failed batch each record is back with its identifier, time and event, the cause, and one retry more (zero after 65535); the others are untouched |
| SpoolSpec.FailedKeepTheirPlace | internal/contexts/traffic/adapters/events/spool.go:278-317 | after a failed attempt the same records wait under the same names |
| SpoolSpec.ClaimsKeepTheirAge | internal/contexts/traffic/adapters/events/spool_claims.go:82-98 | a fresh claim is stale exactly if its record was last written before the cutoff |
| SpoolSpec.ReplayOrder | internal/contexts/traffic/adapters/events/spool_records.go:64-79 | of two records in name order the first was made no later, and with no larger number at one instant, for non-negative times and sequences below 10^16 |
| SpoolSpec.FrontIsOldest | internal/contexts/traffic/adapters/events/spool.go:210-216 | the first records in name order come in the order they were made and before every other waiting record |
| SpoolSpec.PathsSortLikeIds | internal/contexts/traffic/adapters/events/spool_records.go:75-77 | sorting full paths is sorting identifiers |
| FileSpool.FileSpool.constructor | internal/contexts/traffic/adapters/events/spool.go:95-126 | a non-positive claim timeout becomes five minutes |
| FileSpool.FileSpool.RecoverStaleClaims | internal/contexts/traffic/adapters/events/spool_claims.go:71-108 | with no failing call the directory is the recovered one for a cutoff read from the clock |
| FileSpool.FileSpool.RestoreStaleClaim | internal/contexts/traffic/adapters/events/spool_claims.go:110-127 | a stale claim is dropped if its record is committed and committed otherwise |
| FileSpool.FileSpool.PurgeExpired | internal/contexts/traffic/adapters/events/spool_records.go:82-107 | nothing without a maximal age; otherwise exactly the committed records created after a cutoff read from the clock stay, and every other file; a failing run too removes only records at or before such a cutoff |
| FileSpool.FileSpool.RecordFiles | internal/contexts/traffic/adapters/events/spool_records.go:64-79 | all committed records, once each, in replay order |
| FileSpool.FileSpool.WriteRecord | internal/contexts/traffic/adapters/events/spool_records.go:16-49 | on success exactly the record's name is rewritten; on failure no other name has changed |
| FileSpool.FileSpool.StatsLocked | internal/contexts/traffic/adapters/events/spool_stats.go:9-39 | with no failing call depth, bytes and oldest age are those of the committed records |
| FileSpool.FileSpool.Append | internal/contexts/traffic/adapters/events/spool.go:129-189 | stored records are committed with their events; a refusal for space adds none; with no failing call it stores exactly if the bytes fit; a success means that no call failed but those that measured the directory, and if none of these did committed bytes are within the limit; a refused batch goes on record |
| FileSpool.OverLimit | internal/contexts/traffic/adapters/events/spool_stats.go:9-39 | for any two records: a directory at its limit whose listing fails once takes one record more |
| FileSpool.FileSpool.NextBatch | internal/contexts/traffic/adapters/events/spool.go:192-246 | claims the oldest waiting records by time and sequence, up to the limit (at least one), and returns exactly them |
| FileSpool.FileSpool.ClaimRecord | internal/contexts/traffic/adapters/events/spool_claims.go:32-45 | moves one committed record to a claim under the next number, or reports that it vanished |
| FileSpool.FileSpool.Ack | internal/contexts/traffic/adapters/events/spool.go:249-275 | removes exactly the files that the batch was claimed under |
| FileSpool.FileSpool.RecordFailure | internal/contexts/traffic/adapters/events/spool.go:278-317 | rewrites each record with one more retry and the cause and removes its claim; fails only if a call fails or a claim is gone |
| Delivery.DurableSink.WriteBatch | internal/contexts/traffic/adapters/events/durable_sink.go:36-63 | the primary is always tried first and the spool after its refusal: written means the primary took this batch, spooled that it refused it and every event is committed, refused that both refused it or there is no spool, and the spool only after a failed call or for lack of room; nothing else is handed to the spool |
| Pipeline.Pipeline.Enqueue | internal/contexts/traffic/adapters/events/pipeline.go:74-91 | when an event is queued, dropped or refused, and that the drop counter counts discarded events |
| Pipeline.Pipeline.NextBatch | internal/contexts/traffic/adapters/events/pipeline.go:185-196 | takes the front of the queue, a full batch if there are enough events |
| Pipeline.Pipeline.SendFirst | internal/contexts/traffic/adapters/events/pipeline.go:107-111 | the first attempt for the batch in hand, marked delivered: exactly what it adds to the records of primary and spool; the batch is settled, or stays in hand after a refusal by both, whatever others have done to the spool meanwhile |
| Pipeline.Pipeline.SendSecond | internal/contexts/traffic/adapters/events/pipeline.go:112-115 | the second attempt, marked failed and only after such a refusal; the batch is written, spooled or refused twice |
| Pipeline.Pipeline.Flush | internal/contexts/traffic/adapters/events/pipeline.go:94-121 | terminates with an empty queue; accepted events are the batches taken in order plus the queue; primary and spool have taken and refused exactly what these batches account for, in order; it reports an error exactly if some first attempt failed |
| Pipeline.PlacedLater | internal/contexts/traffic/adapters/events/pipeline.go:94-121 | where a batch stands on record (written, spooled, or refused twice by both) stays true as sink and spool go on, replays acknowledged or not |
| Pipeline.PlacedMeans | internal/contexts/traffic/adapters/events/pipeline.go:94-121 | event by event: a batch was sent as delivered, and after a refusal as failed; its events are with the primary in that form, or each is committed in the spool marked spooled, or both refused both attempts |
| Replay.ReplayWorker.SettleBatch | internal/contexts/traffic/adapters/events/durable_sink.go:129-147 | acknowledged: the primary took the whole batch as replayed and the claims are gone; otherwise it took it and a file call failed, or it refused it and the records are back one retry later, or it refused it and a call failed or a claim had gone |
| Replay.ReplayWorker.ReplayOnce | internal/contexts/traffic/adapters/events/durable_sink.go:115-147 | success means nothing waited, or the oldest waiting records reached the primary and exactly these left the directory, claims and all; a refused batch put back leaves the same records waiting and no claim; failing to claim means that a call failed |
| Replay.SentExactly | internal/contexts/traffic/adapters/events/durable_sink.go:129-136 | what the primary is sent is each claimed record's event marked replayed, with one attempt more than the record counts |
| Replay.AtLeastOnce | internal/contexts/traffic/adapters/events/durable_sink.go:115-147 | each committed event is in a file, reached the primary sink, or was purged when a reading of the clock showed that it had reached a configured positive age |
| Replay.Interleave | internal/contexts/traffic/adapters/events/spool.go:129-332 | processes storing, claiming, settling and inspecting in any order, any call failing: if the events given have different cleaned ids, every committed event is accounted for in this way |
| DeliveryChain.Conserved | internal/contexts/traffic/adapters/events/pipeline.go:74-121 | each accepted event is in the queue or the batch in hand, or its batch was written, or an event equal but for its delivery marks was committed in the spool and is in a file, with the primary, or aged out, or everything refused its batch twice |
| DeliveryChain.Run | internal/contexts/traffic/adapters/events/durable_sink.go:36-147 | pipelines that enqueue, take, attempt and close and workers that claim, send, settle and inspect, in any order on one directory: after every run each accepted event is queued, in hand, among what the primary was sent, in a file of the directory, aged out at a reading of the clock, or in a batch refused twice by everything, if the events given have different cleaned ids |
| DeliveryChain.Launch | internal/bootstrap/events/pipeline.go:83-141 | a pipeline and a replay worker started on one spool and one primary sink are such a fleet, with nothing accepted and nothing stored |
| Detection.Match | internal/contexts/detection/domain/regex.go:46-74 | one finding per accepted hit and category, none for empty text |
| Detection.NormalizeCategories | internal/contexts/detection/domain/regex.go:107-123 | the non-empty categories, or the fallback |
| Detection.FindingsIffFires | internal/contexts/detection/domain/regex.go:46-74 | a detector finds something exactly if some hit is accepted |
| Detection.FindingsExactly | internal/contexts/detection/domain/regex.go:46-123 | a definition finds exactly its occurrences (its own or built-in pattern, checked for payment cards), from start to end, under each of its categories or its kind's default |
| Detection.FindingsCount | internal/contexts/detection/domain/regex.go:46-74 | as many findings as accepted hits times categories |
| Policy.CompileSnapshot | internal/contexts/policy/domain/snapshot.go:44-104 | fails exactly on a bad bundle, detector or enabled rule; otherwise the rules, keys, default action and index of the bundles |
| Policy.CompileBundleRules | internal/contexts/policy/domain/snapshot.go:66-90 | compiles the enabled rules in order, and fails exactly if one of them is bad |
| Policy.IndexRules | internal/contexts/policy/domain/snapshot.go:278-290 | each scope's bucket holds its rules in order |
| Policy.StrongestIs | internal/contexts/policy/domain/snapshot.go:373-386 | folding actions gives a candidate that none beats |
| Policy.StrongestPermuted | internal/contexts/policy/domain/snapshot.go:373-386 | the order of valid actions does not matter |
| Evaluation.CandidatesExact | internal/contexts/policy/domain/snapshot.go:292-340 | the nested loops try exactly the scopes that match the request, none twice |
| Evaluation.VisitedOnce | internal/contexts/policy/domain/snapshot.go:292-340 | each rule whose scope matches is visited exactly once, and no other |
| Evaluation.CachedIsDirect | internal/contexts/policy/domain/snapshot.go:342-366 | with a faithful cache, cached findings are direct findings |
| Evaluation.CacheConfusion | internal/contexts/policy/domain/snapshot.go:173 | with a shared key of different detectors, some engine and text show a wrong answer |
| Evaluation.FaithfulExactly | internal/contexts/policy/domain/snapshot.go:342-366 | the cache answers right for every engine and text if and only if detectors with one key are equal |
| Evaluation.MatchRule | internal/contexts/policy/domain/snapshot.go:342-366 | the findings and the filled cache, also on the short cuts for no and one detector |
| Evaluation.Evaluate | internal/contexts/policy/domain/snapshot.go:107-155 | hits, findings and action of the visited rules and then the model signal; named by action: block if the default, a hit or the signal says so, else redact, else shadow log, else the default, where the signal is the fallback if one was used and the suggestion otherwise |
| PolicyRefinement.EvaluateRefinesScan | internal/contexts/policy/domain/snapshot.go:107-155 | same action, default, signal flag, bundle keys and multisets of hits and findings as a scan of all rules |
| PolicyRefinement.CacheKeyInjective | internal/contexts/policy/domain/snapshot.go:172-175 | cache keys determine bundle and detector unless one bundle key starts with the other and a slash |
| PolicyRefinement.KeysApartFaithful | internal/contexts/policy/domain/snapshot.go:165-178 | distinct bundle keys of which none extends another make the cache faithful; slash-free keys are such (SlashFreeApart) |
| PolicyRefinement.SnapshotRefinesScan | internal/contexts/policy/domain/snapshot.go:44-155 | every snapshot of such bundles evaluates every request like the scan |
| PolicyOutcome.EvaluateBundles | internal/contexts/policy/domain/snapshot.go:44-155 | from bundles to decision: compiles exactly well-formed bundles; with keys apart the action is block if and only if some default, enabled rule in scope that finds something, or the signal says block, and likewise redact, shadow log and allow; the hits report exactly the rules that hit with what they find |
| PolicyOutcome.BundleOkExactly | internal/contexts/policy/domain/snapshot.go:53-90 | what a good bundle is: keys, known actions, definitions whose pattern compiles, and enabled rules that name defined detectors |
| CacheClash.CacheIsSafeExactly | internal/contexts/policy/domain/snapshot.go:107-178 | for given bundle keys: every compiling list of bundles evaluates every request like the scan if and only if the keys are distinct and none extends another |
| CacheClash.ClashChangesAction | internal/contexts/policy/domain/snapshot.go:172-175 | for all other keys, bundles that compile and a request that the scan blocks and the cached evaluation allows |
| Canonical.CanonicalBundles | internal/contexts/policy/domain/snapshot.go:213-276 | the unstable sorts yield a canonical form: sorted lists with sorted inner lists of the same elements |
| Canonical.CanonicalValues | internal/contexts/policy/domain/snapshot.go:213-276 | a canonical form says what the bundles say |
| Canonical.CanonicalComplete | internal/contexts/policy/domain/snapshot.go:203-276 | under unique keys, equal canonical forms if and only if the bundles agree up to the order of bundles, detectors, rules, keys and categories |
| Canonical.RanksTellApart | internal/contexts/policy/domain/snapshot.go:213-276 | the sort keys: equal exactly for definitions of one key, kind and pattern, rules of one key, action and severity, bundles of one key and version |
| CanonicalMeaning.ScanActionIsStrongest | internal/contexts/policy/domain/snapshot.go:107-155 | the action is the strongest one that the bundles' values offer for the request |
| CanonicalMeaning.CompilesByValue | internal/contexts/policy/domain/snapshot.go:53-90 | whether bundles compile depends on their values only |
| CanonicalMeaning.ActiveSnapshot | internal/contexts/policy/domain/snapshot.go:64-66 | disabled rules leave no trace in a snapshot |
| CanonicalMeaning.SameCanonicalSameMeaning | internal/contexts/policy/domain/snapshot.go:44-155 | equal canonical forms: both lists compile or neither, and every request gets the same action, default action and signal flag |
| Redaction.RedactText | internal/contexts/gateway/application/redaction.go:20-58 | sorts, merges and splices to the reference result: one token per maximal covered run; a span out of range is skipped, and it fails exactly if a span in range splits a character |
| Redaction.Merge | internal/contexts/gateway/application/redaction.go:25-46 | merged spans are in range, strictly apart and cover exactly the union |
| Redaction.Splice | internal/contexts/gateway/application/redaction.go:48-57 | the output is the text with each covered run replaced, counted once |
| Redaction.OrderIndependent | internal/contexts/gateway/application/redaction.go:20-31 | every order and repetition of the spans gives the same outcome |
| Redaction.LengthLaw | internal/contexts/gateway/application/redaction.go:48-57 | output length is text length minus covered bytes plus ten per redaction |
| Redaction.OneSpan | internal/contexts/gateway/application/redaction.go:48-57 | one span from character to character: the text around it with [REDACTED] in its place, one redaction |
| Redaction.RedactKeepsUtf8 | internal/contexts/gateway/application/redaction.go:33-35 | well-formed text (section 4 of RFC 3629) stays well-formed |
| TextTree.LeafIsString | internal/contexts/gateway/adapters/http/openai/openai_text.go:46-82 | each extracted leaf is a non-empty string at its path |
| TextTree.PutLeaf | internal/contexts/gateway/adapters/http/openai/openai_text.go:46-82 | writing a leaf back and extracting again changes that leaf only |
| TextTree.PutElsewhere | internal/contexts/gateway/adapters/http/openai/openai_text.go:46-82 | writing a string changes nothing off its path |
| TextTree.SameShapesSame | internal/contexts/gateway/adapters/http/openai/openai_text.go:46-82 | values that look alike at every place are equal, so a value unchanged elsewhere is unchanged |
| Segments.SegmentHoldsText | internal/contexts/gateway/adapters/http/openai/openai_text.go:84-104 | a segment's offsets cut its text out of the joined text |
| Segments.SegmentsFollow | internal/contexts/gateway/adapters/http/openai/openai_text.go:84-104 | segments follow each other from 0 to the end with one line feed between |
| Segments.TextAccumulator.Add | internal/contexts/gateway/adapters/http/openai/openai_text.go:84-100 | adds a non-empty text and its absolute offsets |
| Segments.AppendTextSegments | internal/contexts/gateway/adapters/http/openai/openai_text.go:46-82 | the recursion appends exactly the leaves below a value, in order |
| Extractors.ExtractChatInput | internal/contexts/gateway/adapters/http/openai/openai_chat.go:28-45 | joined text and segments of the chat request |
| Extractors.ExtractChatOutput | internal/contexts/gateway/adapters/http/openai/openai_chat.go:48-69 | joined text and segments of the chat response |
| Extractors.ExtractResponsesInput | internal/contexts/gateway/adapters/http/openai/openai_responses.go:21-27 | joined text and segments of the responses request |
| Extractors.ExtractResponsesOutput | internal/contexts/gateway/adapters/http/openai/openai_responses.go:36-66 | joined text and segments of the responses response |
| TextPaths.ChatInputPlaces | internal/contexts/gateway/adapters/http/openai/openai_chat.go:28-45 | the places reached are messages[i].content and what text, content, output, item, response, refusal and positions lead to from there, text hiding its siblings |
| TextPaths.ChatOutputPlaces | internal/contexts/gateway/adapters/http/openai/openai_chat.go:48-69 | the same from choices[i].message.content |
| TextPaths.ResponsesInputPlaces | internal/contexts/gateway/adapters/http/openai/openai_responses.go:21-27 | the same from input |
| TextPaths.ResponsesOutputPlaces | internal/contexts/gateway/adapters/http/openai/openai_responses.go:36-66 | the same from output_text and from the objects output[i].content[k] |
| TextPaths.LeavesInOrder | internal/contexts/gateway/adapters/http/openai/openai_text.go:46-82 | places are visited by position and by member in the order output_text, content, output, item, response, refusal |
| BodyRedaction.Extract | internal/contexts/gateway/adapters/http/openai/openai_protocol.go:32-96 | the segments of a body are the non-empty strings at exactly these places, in this order |
| Documents.SpansForSegment | internal/contexts/gateway/adapters/http/openai/openai_redaction.go:57-78 | the spans clipped to the segment and made relative to it |
| Documents.RedactTextSegments | internal/contexts/gateway/adapters/http/openai/openai_redaction.go:37-55 | fails exactly if a span splits a character of some segment; otherwise rewrites the document and counts the redactions |
| Documents.CountLaw | internal/contexts/gateway/adapters/http/openai/openai_redaction.go:37-55 | the count of redactions is what the lengths show: touched bytes go, ten come for each |
| Documents.RedactionEndToEnd | internal/contexts/gateway/adapters/http/openai/openai_redaction.go:37-78 | extracting the redacted tree gives as many segments, each the old text with the bytes covered in the joined text replaced |
| Documents.RedactionElsewhere | internal/contexts/gateway/adapters/http/openai/openai_redaction.go:37-55 | everything outside the extracted strings is unchanged |
| Documents.RedactionKeepsUtf8 | internal/contexts/gateway/adapters/http/openai/openai_redaction.go:37-78 | redacted strings stay well-formed |
| BodyRedaction.RedactBody | internal/contexts/gateway/adapters/http/openai/openai_redaction.go:12-55 | for each of the four body shapes: extract, redact, extract again; refused exactly if a span splits a character; otherwise each string is its slice of the joined text with the touched bytes replaced, the same places hold text as before, every other place is unchanged and well-formed strings stay so |
| TextTree.ExtractorsProper | internal/contexts/gateway/adapters/http/openai/openai_responses.go:36-66 | no extractor reaches a member twice |
| Sse.SSEParser.Next | internal/contexts/gateway/adapters/http/openai/sse.go:38-76 | the next frame, the end, an oversized frame or a read error, what is left unread, and whether the parser is done |
| Sse.ParseLines | internal/contexts/gateway/adapters/http/openai/sse.go:78-111 | the fields of a frame from its lines |
| Sse.NextConsumes | internal/contexts/gateway/adapters/http/openai/sse.go:38-76 | every frame consumes input, at most the size limit, from the front |
| Sse.FramingLosesNothing | internal/contexts/gateway/adapters/http/openai/sse.go:38-76 | the raw frames are the input cut up: a prefix always, and for an input whose pieces fit all of it, or all through the first done frame |
| Sse.EofExactly | internal/contexts/gateway/adapters/http/openai/sse.go:38-76 | the stream is read to a proper end if and only if no piece of the input exceeds the size limit before a done frame or the end, and the end is a proper one |
| Sse.FrameDataStandard | internal/contexts/gateway/adapters/http/openai/sse.go:78-111 | for LF and CR LF line ends a frame's data is what section 9.2.6 of the WHATWG HTML standard dispatches |
| SseText.LineExactly | internal/contexts/gateway/adapters/http/openai/sse.go:88-98 | name and value of a line: what stands before the first colon, and after it without one leading space |
| SseText.FrameExactly | internal/contexts/gateway/adapters/http/openai/sse.go:78-111 | event, id and retry are those of the last line that names them, the data is what the standard dispatches, and a frame is done exactly if its data is [DONE] with only Unicode white space around it |
| StreamBuffer.StreamWindow.Append | internal/contexts/gateway/application/stream_buffer.go:108-121 | the window is the last characters of everything seen, up to the limit |
| StreamBuffer.StreamTextCollector.Append | internal/contexts/gateway/application/stream_buffer.go:69-78 | accepts a delta exactly if it fits; the text is the concatenation of accepted deltas within the limit |
| StreamBuffer.ByteLenIsUtf8 | internal/contexts/gateway/application/stream_buffer.go:69-78 | the length that the limit bounds is that of the text's well-formed UTF-8 (section 3 of RFC 3629) |
| StreamBuffer.Buffer.ObserveDelta | internal/contexts/gateway/application/stream_buffer.go:24-33 | advances window and collector by one delta |
| StreamBuffer.WindowComplete | internal/contexts/gateway/application/stream_buffer.go:108-121 | every stretch of m characters lies in some window if and only if no delta pushes out the start of a stretch ending in it |
| StreamBuffer.SmallDeltasComplete | internal/contexts/gateway/application/stream_buffer.go:108-121 | deltas of at most limit - m + 1 characters are enough |
| StreamBuffer.ShowsText | internal/contexts/gateway/application/stream_buffer.go:124-129 | a covered stretch appears in the window's text, character for character |
| Streaming.CheckFrame | internal/contexts/gateway/adapters/http/openai/streaming_handler.go:47-73 | the verdict on a frame from its delta, the window and the collector |
| Streaming.HandleFrame | internal/contexts/gateway/adapters/http/openai/streaming_handler.go:46-91 | one turn: stop, or release the frame held back and hold this one |
| Streaming.HandleStreaming | internal/contexts/gateway/adapters/http/openai/streaming_handler.go:33-99 | for every stream, policy and client: which frames were released for each way the loop ends; every released frame that says something was answered neither block nor redact for its window of 4096 characters and its text was within the limit; the end is stream_blocked or unsupported_redaction exactly if the first frame that fails this was answered block or redact; collected text is that of the passed frames |
| Streaming.ReleasedIsPrefix | internal/contexts/gateway/adapters/http/openai/streaming_handler.go:33-99 | released bytes are a prefix of the upstream's; all of it on a clean end, through the done frame otherwise |
| Streaming.StopWithholdsTwo | internal/contexts/gateway/adapters/http/openai/streaming_handler.go:64-72 | a stop at frame k releases exactly frames 0 to k-2 |
| Streaming.ReleasedWasPassed | internal/contexts/gateway/adapters/http/openai/streaming_handler.go:55-90 | every released frame passed policy and size checks on the text up to it |
| RateLimits.RateState.AllowRate | internal/contexts/gateway/adapters/http/openai/limits.go:103-123 | the window step of the request's key; other keys and non-positive policies change nothing |
| RateLimits.RateBound | internal/contexts/gateway/adapters/http/openai/limits.go:103-123 | any interval of length L admits fewer than N(ceil(L/W)+1) requests of a key |
| RateLimits.TwicePerWindow | internal/contexts/gateway/adapters/http/openai/limits.go:103-123 | fewer than 2N in any interval of one window's length |
| RateLimits.RejectedOnlyAtCapacity | internal/contexts/gateway/adapters/http/openai/limits.go:117-119 | a rejection means at least N admissions in the last W |
| RateLimits.ZeroTimeUnlimited | internal/contexts/gateway/adapters/http/openai/limits.go:113-116 | requests at the zero time are always admitted |
| RateLimits.LimitKeyUnique | internal/contexts/gateway/adapters/http/openai/limits.go:195-197 | keys of NUL-free client identifiers determine client and route |
| RateLimits.KeysIndependent | internal/contexts/gateway/adapters/http/openai/limits.go:108-122 | a key's window depends on that key's requests only |
| RateLimits.RunRequests | internal/contexts/gateway/adapters/http/openai/limits.go:103-123 | the answers to a mixed run and the state after it |
| RateLimits.MixedRunBound | internal/contexts/gateway/adapters/http/openai/limits.go:103-123 | in any mixed run an interval of length L admits fewer than N(ceil(L/W)+1) requests of a key, and none under a policy without limit or window |
| Admission.Concurrency.Acquire | internal/contexts/gateway/adapters/http/openai/limits.go:136-163 | reserves exactly if the counter is below a positive maximum; the counter is the number of reservations held |
| Admission.Concurrency.Release | internal/contexts/gateway/adapters/http/openai/limits.go:150-161 | the first release frees one reservation, repeated ones nothing |
| Admission.RunActions | internal/contexts/gateway/adapters/http/openai/limits.go:136-163 | in any interleaving with repeated releases, counters equal what is held and stay within the maximum |
| Admission.LimitResolver.constructor | internal/contexts/gateway/adapters/http/openai/limits.go:18-52 | the protected routes are those that require authentication or have a usable policy; the last valid policy and override for each key |
| Admission.PolicyMapKeys | internal/contexts/gateway/adapters/http/openai/limits.go:30-36 | a route has a policy exactly if some valid one names it |
| Admission.EffectiveExactly | internal/contexts/gateway/adapters/http/openai/limits.go:54-81 | a route without a usable policy has no limit for anyone; otherwise the client's last usable exception applies, and without one the route's last usable policy |
| Admission.AdmitProtectedRoute | internal/contexts/gateway/application/usecases.go:46-94 | the reason of the first failing check; no rate is used before the rate check, and capacity is held only on admission |
| Exchange.Server.Prepare | internal/contexts/gateway/adapters/http/openai/openai_exchange.go:11-99 | why preparation ends: the check that the exit names failed and those before it did not; a reservation is released exactly on failure |
| Exchange.Server.Run | internal/contexts/gateway/application/exchange_workflow.go:17-38 | forwarded exactly if the route is known and admitted, the body read and decoded, provider, audit, mapping, input policy and projection in order; every other exit names the first check that failed; on every exit the reservation has been released exactly once and the slots are as before |
| Revisions.TokenAdvances | internal/adapters/postgres/revisionstore/lookup.go:42-59 | a transaction keeps at most one active revision; the token never goes back and moves whenever the served content does |
| Revisions.RunAdvances | internal/adapters/postgres/revisionstore/lookup.go:42-59 | the same over every run of transactions |
| Revisions.TokenNamesContent | internal/adapters/postgres/revisionstore/lookup.go:12-39 | while a token is current, what was read under it is what is served |
| Revisions.EditUnseen | internal/adapters/postgres/revisionstore/draft.go:12-54 | editing or creating a draft changes neither token nor served content |
| Revisions.ActivationAdvances | internal/adapters/postgres/revisionstore/activation.go:39-116 | a successful activation serves the draft's graph under a larger token |
| Revisions.ServedExactly | internal/adapters/postgres/revisionstore/lookup.go:42-59 | the token is the active revision's number plus the generation; served are its graph and all clients |
| Revisions.RevokedForever | internal/contexts/clients/adapters/postgres/mutations.go:37-79 | in every run clients stay and a revoked one stays revoked |
| Revisions.Store.EnsureDraftRevision | internal/adapters/postgres/revisionstore/draft.go:12-68 | the latest draft, a clone of the active revision, or an empty draft |
| Revisions.Store.WithDraftRevision | internal/adapters/postgres/revisionstore/unit_of_work.go:111-129 | on success the draft holds the edit of the graph it had, or a new draft that of a clone of the active graph or of the empty one; other revisions and clients stay; on failure the tables are as they were |
| Revisions.Store.ActivateDraftRevision | internal/adapters/postgres/revisionstore/activation.go:39-116 | activates the draft exactly if it exists, validates and has a hash: it is then the one active revision, its predecessor is rejected, nothing else changes; the returned token is its number plus the generation and larger than before |
| Revisions.Store.CreateGatewayClient | internal/contexts/clients/adapters/postgres/mutations.go:19-34 | adds a client under a new key and bumps the generation, or changes nothing |
| Revisions.Store.UpsertGatewayClient | internal/contexts/clients/adapters/postgres/mutations.go:37-64 | the client has the given columns; a known one keeps its row id and a revoked one stays revoked; other clients and revisions stay; the generation moves |
| Revisions.Store.RevokeGatewayClient | internal/contexts/clients/adapters/postgres/mutations.go:67-102 | every client with that row id or key is revoked; other clients, columns and revisions stay; the generation moves only if one was not revoked before |
| Runtime.Reloader.ReloadIfChanged | internal/contexts/runtime/application/usecases.go:44-82 | an unchanged token means current content; what is swapped in is current at the load, whatever is committed in between; otherwise what is served stays, for a failed read, a missing revision, or content that does not compile or cannot be served |
| Runtime.Reloader.Swap | internal/contexts/runtime/state.go:33-49 | refuses a missing revision number or a gateway without routes |
| Runtime.Reloader.ServedIsCurrent | internal/contexts/runtime/application/usecases.go:60-62 | a served token that is current names current content |
| Runtime.ProviderServer.CurrentServer | internal/contexts/gateway/adapters/http/openai/server_builder.go:42-57 | the server returned is built from the configuration given, cached or not |
| Runtime.Operate | internal/contexts/gateway/adapters/http/openai/server_builder.go:34-57 | in every run each request is served for the configuration then in the runtime state, which changes at reloads only and was current under its token |
| Runtime.ServingExactly | internal/contexts/gateway/adapters/http/openai/server_builder.go:34-57 | the servers are those of exactly the requests that find a configuration, in order, each with the number and content of the state it found |
| Clone.Database.CloneRevision | internal/adapters/postgres/configstore/revision_clone_orchestration.go:6-45 | succeeds exactly if the source refers to nothing outside itself; old rows stay, each owned row has one copy, references point at copies |
| Clone.Database.CloneTable | internal/contexts/policy/adapters/postgres/clone.go:25-119 | clones the source's rows of one table given those of the tables before it |
| Clone.Database.RemapRefs | internal/contexts/routing/adapters/postgres/clone.go:262-274 | remaps every reference, or fails exactly if one has no clone |
| Clone.ClonePreservesMeaning | internal/adapters/postgres/configstore/revision_clone_orchestration.go:6-45 | the draft's rows with references resolved equal the source's, up to identifiers and order; the source keeps rows and meaning |
| Clone.DraftSelfContained | internal/contexts/policy/adapters/postgres/clone.go:184-333 | every reference in the draft points into the draft |
| Clone.CopyLeadsTo | internal/contexts/policy/adapters/postgres/clone.go:184-333 | table by table, which references a copy has and that they lead to the copies of what the original's lead to; kind and columns stay and the revision is the draft |
| Clone.OwnedExactly | internal/contexts/policy/adapters/postgres/clone.go:70-119 | which revision a row belongs to: the one it names, or that of its bundle or route, or of its rule's bundle |
| Clone.SameTree | internal/contexts/routing/adapters/postgres/clone.go:58-159 | a row and its copy unfold to the same tree |
| DraftClone.CloneGraph | internal/adapters/postgres/configstore/revision_clone_orchestration.go:6-45 | a clone succeeds exactly for a self-contained revision, and draft and source both mean what the source meant |
| DraftClone.FreshDraftServesSame | internal/adapters/postgres/revisionstore/draft.go:12-54 | activating a fresh, unedited draft serves the same meaning to the same clients under a larger token if the active revision is self-contained; otherwise token and content stay |
| VerdictBindings.RouteVerdictBindings | internal/contexts/gateway/adapters/http/openai/gateway_config.go:387-416 | each route with an enabled binding gets the first of those with least priority, other routes none; an error exactly if one of these names no known provider |
| VerdictBindings.BestIsStableMin | internal/contexts/gateway/adapters/http/openai/gateway_config.go:391-394 | the binding has the least priority among the route's enabled ones, the first of equals |
| VerdictBindings.BestIsThatMin | internal/contexts/gateway/adapters/http/openai/gateway_config.go:391-394 | any stable minimum is the binding chosen, so there is one at most |
| VerdictBindings.FirstIsBest | internal/contexts/gateway/adapters/http/openai/gateway_config.go:391-402 | the first eligible binding after the stable sort is that minimum |

## Left out

- The web console, the command line, configuration files, wiring, metrics, tracing, HTTP forwarding, headers, error texts and verdict HTTP calls: plumbing.
- JSON encoding and decoding: bodies are decoded trees, a spool record's size is a parameter, and a record that was written can be read.
- SHA-256 and the hash string: equality of hashes is equality of canonical forms. The value hash of a finding is not modelled.
- The regular-expression engine and the card-number check are parameters of `Detection`; span order and overlap are unrestricted.
- Setter closures are paths into a value tree, so aliasing between closures and shared sub-trees is not captured; a failing redaction's partly rewritten document is not described because the code discards it.
- File-system faults other than a call that fails without effect: partial writes, corruption, and a rename that reports an error after taking effect. Fsync is a call that may fail, durability after power loss is not modelled.
- Spool paths in the directory model are structured names; `SpoolNames` relates them to strings for record paths without the claim marker, which generated event identifiers never contain. The persisted overflow counter and its temporary file are a counter in memory.
- A spool identifier's 64-bit sequence and the drop and generation counters do not wrap; the record's sixteen-bit retry count does.
- The time value "unset" as the creation time of a spooled record in the age statistic.
- Pipeline health gate, last error text, timers, shutdown and goroutine scheduling: events may remain queued after shutdown. A context that ends is one more way for a call to fail.
- `DeliveryChain.Run` takes an attempt (the write to the primary and, after a refusal, the append) as one turn, and gives every pipeline a primary and a spool; `Conserved` covers missing ones.
- The sink that replays write to can be configured apart from the pipeline's; both are one primary sink here.
- A primary sink or client that takes part of a batch or frame and then reports an error: a failed write counts as nothing received.
- The final full-output evaluation, traffic events and counters after a stream ends, and flushing.
- Delta extraction from a frame's JSON and the policy's answer for a window are parameters of `Streaming`.
- Authentication, body reading, decoding, model mapping, input policy and projection enter `Exchange` as their outcomes; panics are not modelled.
- Redaction and enforcement classification in `lifecycle.go` beyond streaming, and the translation of verdicts to signals: one-branch tables.
- SQL statements are reduced to their effect on tables, transactions are serial, and timestamps, notification channels and compiled-snapshot rows are dropped. Foreign keys and not-null constraints of the schema are assumed by `Clone`.
- `Clone` treats the sixteen tables alike: which columns are references is modelled per table, the copied columns are one value, and the iteration order of a table is arbitrary.
- The readiness flag of the reloader, and limits other than per server instance.
- The order of hits and findings: a redaction or hit list drawn from two equal canonical forms may be ordered differently, so `SameCanonicalSameMeaning` speaks of the action, the default and the signal flag.
- What an `SSEParser` leaves unread after an oversized frame or a read error, because the handler reads no further.
- Collaborators that may be nil in the source (limiter, reloader, replay worker, stream buffer) are present; activation hooks are one yes-or-no answer.
