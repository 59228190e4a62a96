# Verified model of the crawler's translation, storage, worker and contract core

A Dafny model of the algorithms and protocols at the centre of the crawler control plane. `dafny verify dfyconfig.toml`
checks all of it.

**Translation.** `TagPairs`, `Sentences`, `Chunking`, `Segmenter` and `SegmenterMachine` model the HTML segmenter as the event
machine it is: a stream of parser events, each with its raw text, drives a block stack, open-tag counters, a run of
tokens, pending text and a protected region. `SegmenterSteps` says what each event does as a function from state to
state, which the machine's methods compute. Whatever the events, putting every segment back into its slot gives the
source back. `ProtectedStretches` finds the protected parts of a document from its events alone and shows that the machine
protects exactly these; `SegmenterGuarantees` that no visible text outside them is left untranslated and that a segment
is over the limit only where no sentence ends; `SegmentLanguages` which block and language a segment carries.
`Placeholders` and `Preservation` model masking before translation
and the placeholder and tag-order checks after it; `Pipeline` models a run over the translation memory and a provider
whose requests are logged, and `MemoryKey` the text its keys are digests of.

**Storage.** `UploadClaims` models the claim table with its leases and fencing generations. `UploadProtocol` puts
producers, sweepers, the table, the object store and a clock into one interleaved state machine, in which PUTs and
deletes may land late and anyone may crash. Committed objects are never missing under two hypotheses that the code does
not check: sweepers and producers use different owner names, and a delete takes effect while the sweeper's lease is
alive. Each is shown to be needed. Keys are content-addressed: each stands for one digest.

**Workers.** `WorkerLease` models self-fencing as a real-time protocol of many workers with claims and heartbeats in
flight. Safety needs an inequality between lease, fence window, watchdog step and the delay of a database call, and
needs the queue not to hand a job back to a worker that still tracks it; both are shown to be necessary, for delays of any
length. The slack is one delay of a claim and one age of a heartbeat, the delay or what the fence allows if that is
shorter; and a second age if a heartbeat writes `now + lease` as it stands instead of never moving an expiry back. The
queue does write it as it stands (lines 238-244 of `src/collector/persistence/postgres/repositories/queue.py`), so the
longer slack is the real one (`keepsLater` false in the model). `WorkerConfig` relates this to the accepted settings.
`ClaimRotation` models round-robin claiming.

**Contracts.** `Supersession` and `Resolution` model reversible entity resolution; `SchemaCompiler` the compilation of JSON
Schema to a MongoDB validator; `JsonText` and `Canonical` the canonical JSON encoding; `Decoding` body reading through
content decoders; `Temporal`, `ReceiptPaging` and `EntityIds` bitemporal intervals, keyset paging and UUID version 7.
`Common` and `Sorting` are shared vocabulary.

Where code and documentation differ, the model follows the code, and a lemma names the difference:

- An auto merge looks for blocked pairs among the affected entities only, not in the whole resulting group
  (`Resolution.MergeIntoBlockedGroup`).
- A supersession cycle is not always an error: one cut from outside settles (`Supersession.CutCycleSettles`).
- Finishing a task drops the worker's entry for its job whoever put it there (`WorkerLease.ReclaimIsUnsafe`).
- A heartbeat's verdict goes by job, not by task: one still in flight can cancel the task of a later claim that its worker
  holds (`WorkerLease.StaleVerdict`).
- The rotation moves on even when its pass is rolled back, so that a full queue can be passed over for ever
  (`ClaimRotation.FailedPassesStarve`), exactly when no row of committed passes is long enough
  (`ClaimRotation.ServedExactlyWhen`).
- The settings' checks do not imply the safety of self-fencing (`WorkerConfig.ChecksAreNotEnough`).
- Keywords beside a reference override instead of adding, listed values under a format can never match, and of `const`
  and `enum` the first is lost (`SchemaCompiler.SiblingsOverride`, `SchemaCompiler.ListedFormatsReject`,
  `SchemaCompiler.ConstIsLost`).
- Replay does depend on the order of the input where two different decisions share the highest version of their id
  (`Supersession.OrderIrrelevantExactlyWhen`).
- A `deflate` stream is told from a raw one by the first chunk, not the first two bytes (`Decoding.DeflateExactlyWhen`).

## Model

| member | source | states |
|---|---|---|
| `SegmenterMachine.SegmentHtml` | src/collector/translation/segmenter.py:127-145 | Main result: for every sequence of parser events and every limit, filling each slot with its own segment gives back the concatenated raw text of the events, every segment has exactly one slot, in increasing order, the text outside the protected stretches, found by a scan of the events alone, is exactly that of the segments together with raw parts that show nothing, and a segment is over the limit only where its run cannot be cut |
| `ProtectedStretches.ProtectedExactlyThere` | src/collector/translation/segmenter.py:212-242 | The machine is inside a region exactly where a scan of the events finds a protected stretch: one opens at a non-void start tag that is skipped, protected inline or translate="no", and ends at its own balanced end tag, at the end tag of an open ancestor, or for an inline one at a block start tag; and its stack is the blocks open outside such stretches |
| `ProtectedStretches.ScanAgrees` | src/collector/translation/segmenter.py:275-312 | Inside a stretch the region has its name, kind, depth and unclosed inner elements, and the ancestors it can be broken off by are the blocks and inline elements that were open where it began |
| `SegmenterGuarantees.NoVisibleTextLeftOut` | src/collector/translation/segmenter.py:404-485 | The text outside the protected stretches of the scan is that of the segments, in order, together with raw parts that show nothing: none of it is left out, and nothing protected gets into a segment as text |
| `SegmenterGuarantees.LimitKept` | src/collector/translation/segmenter.py:438-485 | A segment is within the limit once trimmed, or is a chunk of a run the machine held with no sentence end, outside matched tags, inside it |
| `SegmentLanguages.LanguageOfSegment` | src/collector/translation/segmenter.py:388-396 | A segment carries the name of the innermost block open where its run ended, and the language of the nearest open block whose start tag says a non-empty one |
| `SegmentLanguages.LanguagesInherited` | src/collector/translation/segmenter.py:328-332 | Every open block has the name of its start tag and the language that the nearest start tag, its own included, says |
| `SegmentLanguages.RootLanguage` | src/collector/translation/segmenter.py:289-294 | The document has the language of its only start tag at the top level outside protected stretches, and none when there are several |
| `SegmentLanguages.UnterminatedExactlyWhen` | src/collector/translation/segmenter.py:266-271 | A document is unterminated exactly when it ends inside a protected stretch |
| `SegmenterMachine.Machine.Handle` | src/collector/translation/segmenter.py:206-264 | One event takes exactly the step of its kind; parts expanded, plus run, pending text and the open region, always equal the raw text taken in so far |
| `SegmenterMachine.Machine.Text` | src/collector/translation/segmenter.py:404-412 | Text goes to the open region, the pending text, or starts pending text together with the last text token, which leaves the run; nothing is lost or reordered |
| `SegmenterMachine.Machine.OpaqueText` | src/collector/translation/segmenter.py:414-420 | Comments and declarations go to the open region, to the run as one protected token when there is a run or pending text, and else become a raw part |
| `SegmenterMachine.Machine.MaterializeText` | src/collector/translation/segmenter.py:398-402 | Collected text becomes exactly one text token at the end of the run |
| `SegmenterMachine.Machine.AppendToken` | src/collector/translation/segmenter.py:391-396 | A token joins the run after any pending text; the first token fixes the block and language of the run |
| `SegmenterMachine.Machine.EndSkip` | src/collector/translation/segmenter.py:378-386 | A protected region goes whole into the run as one protected token, or into the parts as one raw part, by its kind |
| `SegmenterMachine.Machine.Flush` | src/collector/translation/segmenter.py:422-436 | Ending a run keeps everything consumed and leaves run and pending text empty |
| `SegmenterMachine.Machine.FlushTokens` | src/collector/translation/segmenter.py:427-436 | Exactly the unmatched tags at the two edges of a run become raw parts, and its core is emitted chunk by chunk |
| `SegmenterMachine.Machine.Emit` | src/collector/translation/segmenter.py:463-485 | Tokens without visible text become raw parts; others one segment whose outer white space stays outside it |
| `SegmenterMachine.Machine.EmitSegment` | src/collector/translation/segmenter.py:468-485 | The new segment takes the next index, the block and the language of the run, and its slot goes between the white space cut off its ends |
| `SegmenterMachine.Machine.PopTo` | src/collector/translation/segmenter.py:334-337 | Popping blocks keeps the counter equal to the multiset of names on the stack |
| `SegmenterMachine.Machine.BlockStart` | src/collector/translation/segmenter.py:314-332 | A block start ends the run, pops an open paragraph and what the tag implicitly closes, and pushes the block with its inherited language |
| `SegmenterMachine.Machine.PopImplied` | src/collector/translation/segmenter.py:318-327 | The bounded scan behind the counter check finds exactly the block to close, or none |
| `Segmenter.NothingToClose` | src/collector/translation/segmenter.py:319-327 | Where the counters know none of the names to close, the scan skipped by the shortcut would have found nothing |
| `Segmenter.ImpliedExactlyWhen` | src/collector/translation/segmenter.py:318-327 | A block start tag ends an open block by implication exactly when one it closes is open, within the scan, with no boundary block from there to the top |
| `SegmenterMachine.Machine.Start` | src/collector/translation/segmenter.py:275-312 | One start tag takes exactly the step described: text of a region, the end of an inline one, the start of one, or markup; which of these it is follows from the scan of the events (`ProtectedStretches.ScanAgrees`) |
| `SegmenterMachine.Machine.StartRegion` | src/collector/translation/segmenter.py:297-307 | A protected or skipped element opens a region that remembers all open ancestors |
| `SegmenterMachine.Machine.OpenAncestors` | src/collector/translation/segmenter.py:363-376 | The ancestors are the blocks on the stack and the unpaired inline tags of the run |
| `SegmenterMachine.Machine.End` | src/collector/translation/segmenter.py:212-242 | End tags inside a region, closing it, or closing an ancestor of it |
| `SegmenterMachine.Machine.EndMarkup` | src/collector/translation/segmenter.py:233-242 | Outside a region an inline end tag joins the run, any other ends it, becomes a raw part, and closes the innermost block of its name |
| `SegmenterMachine.Machine.Close` | src/collector/translation/segmenter.py:266-271 | The end of the document closes an open region, says so, and leaves nothing uncollected |
| `TagPairs.MatchedTagPairs` | src/collector/translation/segmenter.py:113-124 | A pair is an end tag with the innermost open start tag, of the same name; the pairs never cross |
| `TagPairs.StrictMatchingUnique` | src/collector/translation/segmenter.py:113-124 | That description leaves exactly one matching |
| `Chunking.Chunks` | src/collector/translation/segmenter.py:438-461 | Chunks are the whole run when it fits; else they join to it, are cut only at sentence ends outside matched tags, a chunk over the limit holds no such place, and no two neighbours would fit together |
| `Chunking.SentenceUnits` | src/collector/translation/segmenter.py:442-454 | By a running depth, the units of a run: whole tokens, and the sentences of the text outside matched tags |
| `Chunking.UnitsCutExactlyAtSentences` | src/collector/translation/segmenter.py:442-454 | The units are cut at every end of a sentence (a piece with a sentence tail) outside matched tags, and nowhere else |
| `Chunking.PackUnits` | src/collector/translation/segmenter.py:455-461 | Greedy packing keeps order and content, exceeds the limit only with a single unit, and leaves no two neighbours that fit together |
| `Chunking.OverLimitIsUnsplittable` | src/collector/translation/segmenter.py:438-461 | No place where the run may be cut lies inside a chunk over the limit |
| `Sentences.SplitKeepingWhitespace` | src/collector/translation/segmenter.py:516-524 | Pieces join to the text, each holds one sentence, and every cut lies before the white space that follows a sentence end |
| `Preservation.MaskSegment` | src/collector/translation/preservation.py:104-124 | The masked text, its placeholders and its tag pairs are exactly those described; ids 1..n occur in it once each and in ascending order, unmasking the unchanged text restores every token up to escaping (glossary spans in their target form), and this identity translation raises no placeholder or tag-order issue |
| `Preservation.MaskedIsSound` | src/collector/translation/preservation.py:104-151 | All of that holds of the description itself: order and number of placeholders, what unmasking gives back, and the matched tags as properly nested pairs of ids |
| `Preservation.TagHasItsPlaceholder` | src/collector/translation/preservation.py:113-124 | The id recorded for a tag or protected block is that of the placeholder that holds its source, and ids grow with the positions of the tokens |
| `Preservation.ClaimSpans` | src/collector/translation/preservation.py:188-202 | The spans claimed are those of the candidates that overlap no earlier one: pairwise apart and none missed |
| `Preservation.MaskText` | src/collector/translation/preservation.py:180-210 | Masking plain text gives one placeholder per claimed span, in text order, with its source and its replacement, and the escaped text between them |
| `Preservation.TextWithoutGlossary` | src/collector/translation/preservation.py:203-210 | Without glossary terms, masking and unmasking changes at most the escaping of a text |
| `Preservation.TextWithGlossary` | src/collector/translation/preservation.py:203-210 | Unmasking gives a text back with every glossary span, and nothing else, in its target form |
| `Preservation.ChecksMeanExactlyOnce` | src/collector/translation/preservation.py:129-138 | The missing, duplicated and unknown checks all pass exactly when every placeholder occurs exactly once and nothing else does |
| `Preservation.TagOrderMeans` | src/collector/translation/preservation.py:261-270 | The tag order check passes exactly when every matched element starts before it ends and no two overlap without nesting; of an id that repeats the last occurrence counts |
| `Preservation.IdentityHasNoIssue` | src/collector/translation/preservation.py:127-151 | A text with its placeholders once each in order, and properly nested pairs, raises none of the modelled issues |
| `Placeholders.RenderedIsReadBack` | src/collector/translation/preservation.py:82-89 | Placeholders are found again in rendered text exactly where they were put, and substitution puts their replacements there |
| `Pipeline.ExecutePlan` | src/collector/translation/pipeline.py:64-140 | The loops compute the run described on plan, memory and provider: what is asked in which requests, accepted, remembered and assembled; what a run amounts to is said by the laws that follow |
| `Pipeline.CompleteRunTranslates` | src/collector/translation/pipeline.py:104-128 | A complete run shows, for every field, its parts with each slot filled by the html that the check gives for the remembered text of that segment, or by its own html where it is not to be translated; title and lead unescaped |
| `Pipeline.CompleteExactlyWhen` | src/collector/translation/pipeline.py:112-121 | A run is complete exactly when its memory then holds a translation of every job that passes the check, and neither an unsupported language nor an answer cut short is flagged |
| `Pipeline.NothingSentTwice` | src/collector/translation/pipeline.py:75-92 | The requests a run adds to the log send every key of a job that the memory does not hold, no other, and no text twice for a language |
| `Pipeline.AnswersKept` | src/collector/translation/pipeline.py:84-92 | Each batch answered in full length has exactly that answer under its keys, position by position; any other answer is dropped whole, and the run is flagged exactly then |
| `Pipeline.RunIsSafe` | src/collector/translation/pipeline.py:75-110 | Known entries never change; every new entry passed the check for a job with its key; a complete run has every job passed and remembered |
| `Pipeline.RerunIsFree` | src/collector/translation/pipeline.py:64-140 | After a complete run, a run on any memory that still holds its entries makes no request, adds nothing, and gives the same title, lead and body, whatever the provider would answer |
| `Pipeline.PendingBatches` | src/collector/translation/pipeline.py:78-82 | The batches are built job by job, by language in order of appearance |
| `Pipeline.BatchesAreRight` | src/collector/translation/pipeline.py:78-82 | They hold every unknown key once, for the first job that has it, under its language |
| `Pipeline.SentOnce` | src/collector/translation/pipeline.py:78-92 | The keys of all batches together are without repetition |
| `Pipeline.Accept` | src/collector/translation/pipeline.py:94-110 | Finals are exactly the slots whose answer passed, with the html the check gave (`Pipeline.CompleteRunTranslates` says so of complete runs without naming them); new entries exactly the unknown keys that passed |
| `Pipeline.Memory.PutMany` | src/collector/translation/memory.py:76-78 | First write wins |
| `Pipeline.RememberedKeeps` | src/collector/translation/memory.py:67-78 | Stored entries stay, and an entry is there afterwards exactly when it was before or was put |
| `Pipeline.JobsDistinct` | src/collector/translation/pipeline.py:75-105 | Jobs of a valid plan fill distinct slots |
| `MemoryKey.KeyTextIsInjective` | src/collector/translation/memory.py:25-42 | Two key payloads have the same canonical text exactly when they agree in all six components after normalization |
| `UploadClaims.ClaimTable.AcquireUploadClaim` | src/collector/persistence/postgres/repositories/artifacts.py:253-314 | New row, extension of an own live lease, takeover with the next generation, or refusal |
| `UploadClaims.ClaimTable.CommitReference` | src/collector/persistence/postgres/repositories/artifacts.py:343-388 | The fenced update, and its idempotent repetition |
| `UploadClaims.ClaimTable.ReleaseClaim` | src/collector/persistence/postgres/repositories/artifacts.py:391-427 | A row becomes released at this time exactly when it is leased by this owner under this generation, and is then returned; otherwise nothing changes, and released and committed rows are returned as they are |
| `UploadClaims.AcquireExactlyWhen` | src/collector/persistence/postgres/repositories/artifacts.py:231-315 | Who gets a claim, under which generation and until when: everybody but on a committed row or on the live lease of another |
| `UploadClaims.ReleasedIsFree` | src/collector/persistence/postgres/repositories/artifacts.py:391-427 | A released row is free for any owner at once, under the next generation |
| `UploadClaims.ClaimTable.ExpireClaims` | src/collector/persistence/postgres/repositories/artifacts.py:430-455 | Overdue leases only, the longest overdue first, at most the limit, all of them if there is room |
| `UploadClaims.ClaimTable.ListOrphanCandidates` | src/collector/persistence/postgres/repositories/artifacts.py:458-516 | Unreferenced, uncommitted keys past the grace period, the first of them in order of lease end and key |
| `UploadClaims.FencingStep` | src/collector/persistence/postgres/repositories/artifacts.py:253-388 | One operation never lowers the generation, raises it on a change of owner and on every takeover, and leaves committed rows alone |
| `UploadClaims.FencingRun` | src/collector/persistence/postgres/repositories/artifacts.py:253-455 | Over any run of a row the generation never falls and the first committed state is final |
| `UploadClaims.CommitNeedsCurrentLease` | src/collector/persistence/postgres/repositories/artifacts.py:343-388 | A commit succeeds exactly for the current owner and generation with a live lease, or as a repetition with the same digest |
| `UploadProtocol.NoCommittedObjectMissing` | src/collector/storage/sweeper.py:56-80 | Main result: in every interleaving of producers, sweepers, crashes, late PUTs and deletes, expiry and clock ticks, each committed key has its object, each reference a committed key, and each reported success its reference |
| `UploadProtocol.SafeExactlyWhen` | src/collector/storage/sweeper.py:42-80 | That safety holds in all runs exactly when sweepers share no owner name with producers and deletes land under a live lease; the grace period replaces neither |
| `UploadProtocol.FencingOverRuns` | src/collector/storage/upload.py:84-120 | Across the whole system generations never fall, rise with every change of owner, and at most one digest is ever committed for a key |
| `UploadProtocol.LedgerHolds` | src/collector/storage/upload.py:84-120 | Without any hypothesis: references stand only on committed claims, commits carry the digest of their key, and attempts stay within their bound |
| `UploadProtocol.NewReference` | src/collector/storage/upload.py:99-112 | A reference is written only in a step after which its claim is committed |
| `UploadProtocol.SweepsAccountForAll` | src/collector/storage/sweeper.py:54-83 | Each sweep accounts for every candidate exactly once: deleted, skipped, in hand or to do; a finished sweep left none out |
| `UploadProtocol.ReleaseGivesUp` | src/collector/storage/sweeper.py:72-80 | After the releasing step of a sweeper its generation no longer holds the row, any owner gets the next one, and no other row, object or reference is touched |
| `UploadProtocol.UndisturbedUpload` | src/collector/storage/upload.py:84-112 | A producer that nobody disturbs on a free key uploads at its first attempt, whatever the rest of the system holds |
| `UploadProtocol.UndisturbedDuplicate` | src/collector/storage/upload.py:84-112 | On a committed key it adds its reference and changes nothing else |
| `UploadProtocol.UndisturbedSweep` | src/collector/storage/sweeper.py:54-83 | A sweeper that nobody disturbs deletes an orphan and leaves its key released and free under the next generation |
| `UploadProtocol.EveryStepIsARowStep` | src/collector/persistence/postgres/repositories/artifacts.py:253-455 | Every step of the system moves each row by an operation of the claim table and drops none |
| `UploadProtocol.StoreKeeps` | src/collector/storage/sweeper.py:69-80 | Under the hypotheses an object disappears only while a sweeper, and no producer, holds its key |
| `WorkerLease.SelfFencingIsSafe` | src/collector/workers/runtime.py:788-817 | Main result: with room in the lease for the delays, the fence window and a watchdog step, every running task is leased and unexpired, and no job ever runs twice |
| `WorkerLease.SafeExactlyWhen` | src/collector/workers/runtime.py:429-495 | For every bound on delays, however long: no job ever runs twice exactly when claim delay, heartbeat age, setback, fence window and watchdog step fit into the lease and the queue never hands a job back to a worker that tracks it |
| `WorkerLease.RoomIsNeeded` | src/collector/workers/runtime.py:706-817 | Without the room some run that keeps every deadline executes a job twice |
| `WorkerLease.ReclaimIsUnsafe` | src/collector/workers/runtime.py:527-550 | A finished task drops the table entry of its successor for the same job, which then outlives its lease unfenced |
| `WorkerLease.LiveLeaseLasts` | src/collector/workers/runtime.py:788-817 | A lease that lags the last confirmation by the slack outlives the fence window and one watchdog step |
| `WorkerLease.StopsExactlyWhen` | src/collector/workers/runtime.py:774-784 | In one step a running task stops exactly when it ends, its worker crashes or is fenced with its window run out, or a confirmed heartbeat has found its very job lost |
| `WorkerLease.StartsExactlyWhen` | src/collector/workers/runtime.py:415-485 | A task starts exactly when a committed claim of its job comes back to an unfenced worker |
| `WorkerLease.OwnedTaskRunsOn` | src/collector/workers/runtime.py:758-817 | In every run without reclaiming, a task whose row stays with its worker runs on until it ends, its worker crashes or a fence comes down on a window that has run out, unless a heartbeat already committed at its start had found its job lost |
| `WorkerLease.StaleVerdict` | src/collector/workers/runtime.py:758-784 | That exception is real: a job reported while a heartbeat that names it is in flight is found lost, and when it is claimed again at once its new task is cancelled although the row is with its worker throughout |
| `WorkerLease.BeatApplied` | src/collector/workers/runtime.py:774-784 | A confirmed heartbeat leaves exactly the tasks running, and the entries in the table, whose job was not lost, resets the window, and touches no other worker |
| `WorkerLease.StartedKeeps` | src/collector/workers/runtime.py:475-492 | A claim applied after a fence starts nothing; otherwise its tasks hold leases within the slack |
| `WorkerLease.ConfirmedKeeps` | src/collector/workers/runtime.py:774-784 | A confirmed heartbeat may reset the window and keeps the invariant: every task left was renewed or claimed during it (which tasks are left is `WorkerLease.BeatApplied`) |
| `WorkerLease.BeatCommitKeeps` | src/collector/workers/runtime.py:733-764 | Renewing the snapshot keeps tasks claimed meanwhile within the slack |
| `WorkerLease.WatchdogKeeps` | src/collector/workers/runtime.py:706-727 | A check fences once the window has run out and otherwise shows that it has not |
| `WorkerLease.AbandonKeeps` | src/collector/workers/runtime.py:862-881 | Abandoning jobs cancels exactly their running tasks, takes exactly their entries, and keeps the invariant |
| `WorkerConfig.ToleratedDelay` | src/collector/workers/config.py:144-187 | Accepted settings are safe in every run for delays up to a third of what fence window and watchdog leave of the lease |
| `WorkerConfig.SettingsSafeExactlyWhen` | src/collector/workers/config.py:144-201 | Exactly which delays are safe under accepted settings, in terms of lease, fence window and watchdog step alone |
| `WorkerConfig.DefaultTolerance` | src/collector/workers/config.py:177-187 | With the default fence window every delay up to an eighth of the lease is safe |
| `WorkerConfig.ChecksAreNotEnough` | src/collector/workers/config.py:144-175 | Settings with a fence window as long as the lease are accepted, and let a job run twice even without delays |
| `WorkerConfig.WatchdogBeatsTheBudget` | src/collector/workers/config.py:184-196 | The watchdog fences before a hung heartbeat runs out of budget exactly when the fence window is at least the watchdog's shortest step |
| `ClaimRotation.Claimer.Claim` | src/collector/workers/runtime.py:429-495 | A pass takes jobs round the ring from the rotation index up to its limit; a failed pass gives them back, a fenced one starts none, and both leave the rotation moved |
| `ClaimRotation.Claimer.ClaimForFreeSlots` | src/collector/workers/runtime.py:415-427 | No pass starts more tasks than there are free slots or than the batch |
| `ClaimRotation.Claimer.ClaimLoop` | src/collector/workers/runtime.py:415-427 | A run of passes starts, pass by pass, exactly what those patterns are about |
| `ClaimRotation.PassServesOrApproaches` | src/collector/workers/runtime.py:444-460 | A committed pass over a non-empty queue claims something and serves that queue or moves the rotation strictly closer to it |
| `ClaimRotation.NoStarvation` | src/collector/workers/runtime.py:429-460 | A binding whose queue is never empty is served within as many committed passes in a row as there are bindings, whatever happens to the other queues |
| `ClaimRotation.ServedExactlyWhen` | src/collector/workers/runtime.py:429-485 | Over all patterns of passes that commit, are fenced or fail at any point: service of a never-empty binding is guaranteed exactly when as many passes as there are bindings commit in a row, passes that fail before their first binding not counting |
| `ClaimRotation.FailedPassesStarve` | src/collector/workers/runtime.py:458-472 | Without such a row there is a queue history, for every pattern and number of bindings, in which the binding is never served |
| `ClaimRotation.ScanConserves` | src/collector/workers/runtime.py:444-460 | What a pass claims through a binding is the front of its queue, and the queue keeps the rest |
| `Supersession.EffectiveDecisions` | src/collector/contracts/resolution.py:110-130 | It returns exactly when supersession has exactly one answer, and then returns that one with the decisions in force |
| `Supersession.SettlesExactlyWhenUnique` | src/collector/contracts/resolution.py:121-130 | The rounds settle within n + 1 exactly when there is exactly one set in which an id is superseded iff a decision outside it points at it |
| `Supersession.AcyclicSettles` | src/collector/contracts/resolution.py:121-130 | Every acyclic supersession graph, dangling ids included, settles |
| `Supersession.CutCycleSettles` | src/collector/contracts/resolution.py:121-130 | A cycle that a decision in force cuts into still settles |
| `Supersession.BareCyclesFail` | src/collector/contracts/resolution.py:121-130 | Two decisions that supersede each other, and three in a circle, do not settle |
| `Supersession.SettledIsTheOnlyFixed` | src/collector/contracts/resolution.py:121-128 | Whatever the rounds settle on is the only fixed point |
| `Supersession.SwingIsNotUnique` | src/collector/contracts/resolution.py:121-130 | When two sets swing into each other with every fixed point between them there is no single answer: any fixed point can be turned over inside the gap |
| `Supersession.LatestIgnoresOrder` | src/collector/contracts/resolution.py:114-118 | Where decisions of one id that share its highest version are equal, the latest decisions do not depend on the order of the input |
| `Supersession.OrderIrrelevantExactlyWhen` | src/collector/contracts/resolution.py:114-118 | That condition is exact: it holds if and only if every order of the input gives the same latest decisions |
| `Supersession.SupersedingTakesOutOne` | src/collector/contracts/resolution.py:121-128 | For any target and any new decision that points at it: the answers are those of the graph in which the target was never made, with it added; so one graph has a single answer exactly when the other has |
| `Supersession.ChainRestores` | src/collector/contracts/resolution.py:137-145 | In a chain of three, the first decision is in force again; superseding the last brings the second back |
| `Resolution.Registry.Leave` | src/collector/contracts/resolution.py:169-174 | Leaving keeps the two indexes exact inverses and drops a group that became empty |
| `Resolution.Registry.Apply` | src/collector/contracts/resolution.py:176-199 | Each decision has its effect on membership, blocks, applied and skipped, and keeps the indexes exact inverses |
| `Resolution.InverseIsPartition` | src/collector/contracts/resolution.py:163-174 | Exact inverse indexes make a partition |
| `Resolution.OnlyAffectedMove` | src/collector/contracts/resolution.py:180-198 | Only affected or unmerged entities move |
| `Resolution.GroupActionGathers` | src/collector/contracts/resolution.py:180-194 | A manual link, or a merge that is applied, puts its members and everybody who shares a group with one of them into its group |
| `Resolution.GroupedExactlyWhen` | src/collector/contracts/resolution.py:180-199 | Over a whole replay: an entity is in a group exactly when an applied merge or a manual link named it and no unmerge has named it since |
| `Resolution.BlockedExactlyWhen` | src/collector/contracts/resolution.py:195-196 | Over a whole replay: a pair is blocked exactly when some manual block names both its entities |
| `Resolution.GroupsMoveWhole` | src/collector/contracts/resolution.py:180-193 | Entities that share a group still share one after any decision but an unmerge |
| `Resolution.MergeRespectsBlocksExactlyWhen` | src/collector/contracts/resolution.py:180-193 | An applied merge leaves a blocked pair in its group exactly when the pair involves an old member of the canonical group that was not affected |
| `Resolution.MergeIntoBlockedGroup` | src/collector/contracts/resolution.py:185-193 | Such a merge exists: the check is weaker than its documentation (lines 147-151), which speaks of every pair of the resulting group |
| `Resolution.EveryDecisionCounted` | src/collector/contracts/resolution.py:176-199 | Every decision in force is applied or skipped, and blocks are kept for good |
| `Resolution.ProjectGroups` | src/collector/contracts/resolution.py:133-211 | The projection is the snapshot of the replay, in the documented order, of the decisions in force |
| `Resolution.OrderIndependent` | src/collector/contracts/resolution.py:158-211 | Where decisions of one id that share its highest version are equal, any order of the input gives the identical snapshot |
| `Resolution.SupersedingUndoes` | src/collector/contracts/resolution.py:133-211 | Superseding any decision, whatever it superseded itself, projects exactly when the history in which it was never made does, and to the same snapshot with one more superseded |
| `Resolution.RejectingUndoes` | src/collector/contracts/resolution.py:133-211 | A rejection that supersedes a decision has no other effect on groups and blocks than to undo it |
| `SchemaCompiler.Compiles` | src/collector/persistence/mongo/validators.py:104-152 | Main result: what the schema accepts the compiled validator accepts, when the schema is one the compiler is faithful to; and the other way round when nothing is dropped; how formats are stored is fixed by `SchemaCompiler.FormatStored` |
| `SchemaCompiler.BuildIsFaithful` | src/collector/persistence/mongo/validators.py:76-101 | A contract document with the demanded fields and well-stored extra fields passes the built validator; with a closed top level and no extra fields nothing else does |
| `SchemaCompiler.StackGrows` | src/collector/persistence/mongo/validators.py:105-117 | The termination measure of inlining: every unfolded reference leaves fewer definitions off the stack |
| `SchemaCompiler.NodeTypesAgree` | src/collector/persistence/mongo/validators.py:119-134 | Types and formats mean the same on stored documents; how each format is stored is fixed by `SchemaCompiler.FormatStored` |
| `SchemaCompiler.FormatStored` | src/collector/persistence/mongo/validators.py:49-49 | What a converted node accepts under a format has the BSON type of its format: date for date-time, binData for uuid and base64url |
| `SchemaCompiler.FormatConvertsExactlyWhen` | src/collector/persistence/mongo/validators.py:119-128 | Under a format a node converts exactly when the format is one of these three, the type is string, and the rest of the node converts |
| `SchemaCompiler.LimitsKept` | src/collector/persistence/mongo/validators.py:129-152 | A converted node keeps its limits, under a format all but those on text |
| `SchemaCompiler.TypesAgree` | src/collector/persistence/mongo/validators.py:155-166 | The BSON types of a type list are exactly those of the values it accepts |
| `SchemaCompiler.MergedMeansTheSame` | src/collector/persistence/mongo/validators.py:113-117 | Annotations beside a reference do not change what it means |
| `SchemaCompiler.SiblingsOverride` | src/collector/persistence/mongo/validators.py:116-117 | Other keywords beside a reference override the definition, so that an accepted document is rejected |
| `SchemaCompiler.ListedFormatsReject` | src/collector/persistence/mongo/validators.py:128-148 | A node that lists values under a format compiles to a validator that accepts nothing, whatever else it says |
| `SchemaCompiler.ListedFormatsMean` | src/collector/persistence/mongo/validators.py:128-148 | The schema itself does accept documents under such a node |
| `SchemaCompiler.FirstIsLost` | src/collector/persistence/mongo/validators.py:145-148 | Of const and enum in one node the first is lost, whatever else the node says |
| `SchemaCompiler.ConstIsLost` | src/collector/persistence/mongo/validators.py:145-148 | So const beside enum keeps its meaning exactly when the one that comes last says it all |
| `SchemaCompiler.DroppedUnderNot` | src/collector/persistence/mongo/validators.py:111-112 | A recursive reference beneath a not turns what is dropped into a rejection |
| `SchemaCompiler.ExtendedAccepts` | src/collector/persistence/mongo/validators.py:92-96 | Extra properties reject only wrongly stored extra fields, and change nothing for documents without them |
| `SchemaCompiler.DemandingAsksFor` | src/collector/persistence/mongo/validators.py:190-195 | Required properties are demanded, and nothing else |
| `JsonText.DecodesEveryTree` | src/collector/contracts/canonical.py:115-126 | A decoder recovers every tree from its text |
| `JsonText.ReadsPrinted` | src/collector/contracts/canonical.py:118-124 | The text of a value can be read off the front of any text it starts, so no value runs into the next |
| `JsonText.PrintIsInjective` | src/collector/contracts/canonical.py:115-126 | Distinct trees have distinct texts |
| `Canonical.EnumerationOrderIrrelevant` | src/collector/contracts/canonical.py:94-126 | The text does not depend on the order in which any mapping or set, at any depth, is enumerated |
| `Canonical.MappingOrderIrrelevant` | src/collector/contracts/canonical.py:94-105 | Entries in another order give the same tree, or fail alike |
| `Canonical.SetOrderIrrelevant` | src/collector/contracts/canonical.py:106-108 | A set enumerated in another order gives the same list |
| `Canonical.FieldsExactlyWhen` | src/collector/contracts/canonical.py:94-105 | A mapping is encoded exactly when its keys are strings that stay distinct under normalization and its values can be encoded |
| `Canonical.CanonicalTextIsInjective` | src/collector/contracts/canonical.py:115-126 | Values with the same canonical text have the same tree |
| `Decoding.ReadBody` | src/collector/fetch/decoding.py:171-241 | A body that is read is a function of the joined bytes; every error says something about the whole body, a bomb that what had come out of some first bytes was over the ratio; counters stay within the limit |
| `Decoding.ChunkingIrrelevant` | src/collector/fetch/decoding.py:171-241 | Two readings of the same bytes that finish agree; a sitemap is marked compressed exactly when its entity starts with 1f 8b; a body within its limits and at no point over the ratio is always read |
| `Decoding.Chain.Pipe` | src/collector/fetch/decoding.py:136-142 | Piping fails exactly when the decoders, fed all input at once, would, and otherwise gives out exactly their new output |
| `Decoding.Chain.Finish` | src/collector/fetch/decoding.py:145-152 | Finishing the chain left to right gives the whole output, each decoder getting its predecessor's tail |
| `Decoding.Reader.ConsumeEntity` | src/collector/fetch/decoding.py:209-219 | Whether a sitemap is a gzip file is decided by the first two bytes of the entity, however they arrive |
| `Decoding.Reader.CountAll` | src/collector/fetch/decoding.py:191-199 | Pieces are counted until a limit is passed, or until they are over the ratio to what was received |
| `Decoding.Reader.Close` | src/collector/fetch/decoding.py:232-235 | An entity shorter than the magic is taken as it is, and the inner stream is finished |
| `Decoding.ThroughGrows` | src/collector/fetch/decoding.py:136-142 | A chain of homomorphic decoders is homomorphic |
| `Decoding.DeflateExactlyWhen` | src/collector/fetch/decoding.py:53-66 | For deflate the chunks do matter: the window is the stream's own exactly when the first chunk holds the two-byte header or there is none |
| `Temporal.NextStrictlyLater` | src/collector/contracts/temporal.py:206-217 | Each version gets the least later value of the axis, or none |
| `Temporal.BuildIntervals` | src/collector/contracts/temporal.py:220-251 | It fails exactly on a repeated version number; the interval check never fires |
| `Temporal.ValidExactlyWhenLatest` | src/collector/contracts/temporal.py:180-188 | A version is in force at a time exactly when its own time is the greatest that is not later, on each axis |
| `Temporal.IntervalsTile` | src/collector/contracts/temporal.py:220-251 | On each axis the intervals cover exactly what is not before the first version, and those that share a time are equal |
| `Temporal.SamePointSameTimes` | src/collector/contracts/temporal.py:180-188 | Two versions in force at the same point agree on both times |
| `Temporal.OrderIrrelevant` | src/collector/contracts/temporal.py:226-228 | The order of the input does not matter |
| `ReceiptPaging.ListReceipts` | src/collector/persistence/mongo/repositories.py:114-152 | A page is the first receipts after the cursor in order of commit time and id, with a next cursor exactly when there are more; a bad limit is refused |
| `ReceiptPaging.WalkIsComplete` | src/collector/persistence/mongo/repositories.py:122-151 | Following the cursor to its end returns every receipt that was there at the start, whatever is inserted between pages |
| `ReceiptPaging.WalkAscends` | src/collector/persistence/mongo/repositories.py:122-151 | The pages together ascend, so nothing is returned twice |
| `ReceiptPaging.StillWalkIsTheList` | src/collector/persistence/mongo/repositories.py:122-151 | On a database at rest the walk ends within the expected number of pages, and the pages join to the whole sorted list |
| `EntityIds.Uuid7Generator.Generate` | src/collector/contracts/identity.py:81-100 | One call advances the generator and lays out its fields |
| `EntityIds.IdsIncrease` | src/collector/contracts/identity.py:64-100 | For every clock, backwards steps included, ids strictly increase while the generator's time is a 48-bit number |
| `EntityIds.GreaterExactlyWhen` | src/collector/contracts/identity.py:81-100 | A later id is greater exactly when both times fall into the same 48-bit era |
| `EntityIds.OrderBreaksOutside` | src/collector/contracts/identity.py:76-100 | At the end of the era, and for a clock before 1970, the order breaks |
| `EntityIds.FieldsRecover` | src/collector/contracts/identity.py:93-99 | Every field can be read back, so none overlaps another; version and variant are fixed |
| `EntityIds.TimestampRecovers` | src/collector/contracts/identity.py:111-115 | The timestamp of an id is exactly the stored millisecond |

## Left out

- The `html.parser` tokenizer, the regular expressions and `html.unescape`: events, match spans and the unescaped text are inputs; of unescaping only that it keeps blank text blank is used, and for the limit that white space at either end does not make it shorter.
- Attribute slots (`alt`, `title`): reassembly escapes their values, so the model keeps `translate_attributes` empty.
- The `lang` and `translate` attributes come parsed with the event; digits in placeholder ids are ASCII digits.
- The tag, number, URL and e-mail comparisons of the preservation check: they compare multisets of regular expression matches; the pipeline takes the whole check as a parameter.
- Pipeline.ExecutePlan: does not model the count of characters sent, and digests of keys are taken to be free of collisions.
- Planner, language detection and glossary choice: they decide what the plan holds, which is an input here.
- UploadClaims.ClaimTable.CommitReference: the timestamps of the last update and of creation, and the row id, are not part of the row; the media type given is either absent or used as it is.
- UploadProtocol.NoCommittedObjectMissing: one clock for all actors; an actor's database transaction is one atomic step; objects are modelled by their digest, so size and integrity headers are not.
- WorkerLease.SelfFencingIsSafe: calls that are given up have no later effect, and the drain path that releases leases at shutdown is not part of the protocol.
- ClaimRotation.Claimer.Claim: the backoff after failed passes and the drain barrier are reduced to whether a pass is allowed.
- ClaimRotation.Claimer.ClaimLoop: what happens to queues, tasks and the fence between two passes is an input, one round for each pass.
- SchemaCompiler.Compiles: boolean schemas, the binary subtypes of UUID and base64url, and numeric `exclusiveMinimum`/`exclusiveMaximum`, which a draft 4 server reads differently, are not modelled; limit keywords have one abstract meaning on both sides, and format is how a string is stored.
- SchemaCompiler.BuildIsFaithful: the title of the validator and the alphabetical order of its required list are not modelled.
- Canonical.EnumerationOrderIrrelevant: the text forms of dates, decimals, UUIDs and bytes are inputs, normalization to NFC is an arbitrary function, and lone surrogates do not exist in the model's strings.
- Decoding.ReadBody: decoders are functions of all they were fed that only ever add output; their pieces are produced at once rather than lazily, so which of two errors in one chunk is raised first is not modelled. Choosing decoders by header name is left out.
- Temporal.BuildIntervals: times are integers; deriving an effective time and the checks of source and system time are left out.
- EntityIds.Uuid7Generator.Generate: the fields are added where the code combines them bit by bit, which is the same because none overlaps (`EntityIds.FieldsRecover`); identity hashes are left out.
- The queue, projection, pool, limiter and outbox repositories, SQL, HTTP, S3, compression libraries, digests, logging, health checks, the web interface and the command line.
