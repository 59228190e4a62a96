/** Running a translation plan over the translation memory and a provider. */
module Pipeline {
  import opened Common
  import opened Preservation
  import opened Segmenter

  // ---------------------------------------------------------------- plan and memory

  datatype Flag = PreservationFailed | LowConfidence | ProviderTruncated | LanguageUnsupported | UntranslatedContent

  /** The five components a memory key is a digest of; digests are taken to be collision-free. */
  datatype Key = Key(sourceLanguage: string, targetLanguage: string, segmentHash: string,
                     provider: string, modelVersion: string, glossaryVersion: string)

  datatype Setting = Setting(target: string, provider: string, modelVersion: string, glossaryVersion: string)

  datatype Planned = Planned(field: string, index: nat, language: string, masked: Masked, html: string, translate: bool)

  datatype FieldPlan = FieldPlan(name: string, document: Document, segments: seq<Planned>)

  datatype Plan = Plan(fields: seq<FieldPlan>, notRequired: bool, flags: set<Flag>)

  datatype Entry = Entry(key: Key, text: string)

  /** The result of the preservation check: accepted or not, and the unmasked HTML. */
  datatype Verdict = Verdict(ok: bool, html: string)

  type Check = (Masked, string) -> Verdict

  datatype Job = Job(planned: Planned, key: Key) {
    function Slot(): (string, nat) { (planned.field, planned.index) }
  }

  /** First write wins: an entry never changes once it is stored. */
  class Memory {
    var entries: map<Key, Entry>

    constructor ()
      ensures entries == map[]
    {
      entries := map[];
    }

    method GetMany(keys: set<Key>) returns (found: map<Key, Entry>)
      ensures found == map k | k in keys && k in entries :: entries[k]
    {
      found := map k | k in keys && k in entries :: entries[k];
    }

    method PutMany(added: seq<Entry>)
      modifies this
      ensures entries == Remembered(old(entries), added)
    {
      for i := 0 to |added|
        invariant entries == Remembered(old(entries), added[..i])
      {
        assert added[..i + 1][..i] == added[..i];
        if added[i].key !in entries {
          entries := entries[added[i].key := added[i]];
        }
      }
      assert added[..|added|] == added;
    }
  }

  function Remembered(entries: map<Key, Entry>, added: seq<Entry>): map<Key, Entry> {
    if added == [] then entries
    else
      var earlier, last := Remembered(entries, added[..|added| - 1]), added[|added| - 1];
      if last.key in earlier then earlier else earlier[last.key := last]
  }

  lemma {:induction false} RememberedKeeps(entries: map<Key, Entry>, added: seq<Entry>)
    ensures forall k :: k in entries ==> k in Remembered(entries, added) && Remembered(entries, added)[k] == entries[k]
    ensures forall k :: k in Remembered(entries, added) <==> k in entries || exists e :: e in added && e.key == k
    ensures forall k :: k in Remembered(entries, added) && k !in entries ==> Remembered(entries, added)[k] in added
    ensures (forall k :: k in entries ==> entries[k].key == k) ==>
      forall k :: k in Remembered(entries, added) ==> Remembered(entries, added)[k].key == k
  {
    if added != [] {
      var front, last := added[..|added| - 1], added[|added| - 1];
      RememberedKeeps(entries, front);
      assert added == front + [last];
    }
  }

  // ---------------------------------------------------------------- jobs

  function KeyOf(planned: Planned, setting: Setting, normalizedHash: string -> string): Key {
    Key(planned.language, setting.target, normalizedHash(planned.masked.text),
        setting.provider, setting.modelVersion, setting.glossaryVersion)
  }

  /** The segments to translate, in reading order. */
  function ToTranslate(segments: seq<Planned>): seq<Planned> {
    if segments == [] then []
    else
      ToTranslate(segments[..|segments| - 1]) +
      if segments[|segments| - 1].translate then [segments[|segments| - 1]] else []
  }

  function AllSegments(fields: seq<FieldPlan>): seq<Planned> {
    if fields == [] then [] else AllSegments(fields[..|fields| - 1]) + fields[|fields| - 1].segments
  }

  function Jobs(plan: Plan, setting: Setting, normalizedHash: string -> string): (jobs: seq<Job>)
    ensures forall j :: j in jobs ==> j.key.sourceLanguage == j.planned.language
  {
    var planned := ToTranslate(AllSegments(plan.fields));
    seq(|planned|, i requires 0 <= i < |planned| => Job(planned[i], KeyOf(planned[i], setting, normalizedHash)))
  }

  /** No two segments of a plan share a field and an index. */
  predicate DistinctSlots(jobs: seq<Job>) {
    forall i, j :: 0 <= i < j < |jobs| ==> jobs[i].Slot() != jobs[j].Slot()
  }

  predicate PlanValid(plan: Plan) {
    && (forall i, j :: 0 <= i < j < |plan.fields| ==> plan.fields[i].name != plan.fields[j].name)
    && forall i :: 0 <= i < |plan.fields| ==> FieldValid(plan.fields[i])
  }

  predicate FieldValid(f: FieldPlan) {
    && |f.segments| == |f.document.segments| && SlotsBelow(f.document.parts, |f.document.segments|)
    && forall k :: 0 <= k < |f.segments| ==> f.segments[k].field == f.name && f.segments[k].index == k
  }

  predicate DistinctPlanned(planned: seq<Planned>) {
    forall i, j :: 0 <= i < j < |planned| ==> (planned[i].field, planned[i].index) != (planned[j].field, planned[j].index)
  }

  lemma {:induction false} FieldsDistinct(fields: seq<FieldPlan>)
    requires forall i, j :: 0 <= i < j < |fields| ==> fields[i].name != fields[j].name
    requires forall i :: 0 <= i < |fields| ==> FieldValid(fields[i])
    ensures DistinctPlanned(AllSegments(fields))
    ensures forall p :: p in AllSegments(fields) ==> exists i :: 0 <= i < |fields| && fields[i].name == p.field
  {
    if fields != [] {
      var front, last := fields[..|fields| - 1], fields[|fields| - 1];
      FieldsDistinct(front);
      forall p | p in AllSegments(fields) ensures exists i :: 0 <= i < |fields| && fields[i].name == p.field {
        if p in AllSegments(front) {
          var i :| 0 <= i < |front| && front[i].name == p.field;
          assert fields[i].name == p.field;
        }
      }
      var all := AllSegments(fields);
      forall i, j | 0 <= i < j < |all| ensures (all[i].field, all[i].index) != (all[j].field, all[j].index) {
        assert i < |AllSegments(front)| ==> all[i] in AllSegments(front);
      }
    }
  }

  lemma {:induction false} FilterDistinct(segments: seq<Planned>)
    requires DistinctPlanned(segments)
    ensures DistinctPlanned(ToTranslate(segments))
    ensures forall p :: p in ToTranslate(segments) <==> p in segments && p.translate
  {
    if segments != [] {
      var front, last := segments[..|segments| - 1], segments[|segments| - 1];
      FilterDistinct(front);
      assert segments == front + [last];
      forall i | 0 <= i < |ToTranslate(front)|
        ensures (ToTranslate(front)[i].field, ToTranslate(front)[i].index) != (last.field, last.index)
      {
        assert ToTranslate(front)[i] in front;
      }
    }
  }

  lemma JobsDistinct(plan: Plan, setting: Setting, normalizedHash: string -> string)
    requires PlanValid(plan)
    ensures DistinctSlots(Jobs(plan, setting, normalizedHash))
  {
    FieldsDistinct(plan.fields);
    FilterDistinct(AllSegments(plan.fields));
  }

  // ---------------------------------------------------------------- asking the provider

  function Keys(batch: seq<Job>): seq<Key> {
    seq(|batch|, i requires 0 <= i < |batch| => batch[i].key)
  }

  function SentKeys(order: seq<string>, pending: map<string, seq<Job>>): seq<Key>
    requires forall l :: l in order ==> l in pending
  {
    if order == [] then [] else SentKeys(order[..|order| - 1], pending) + Keys(pending[order[|order| - 1]])
  }

  predicate NoRepeats<T(==)>(items: seq<T>) {
    forall i, j :: 0 <= i < j < |items| ==> items[i] != items[j]
  }

  /** What is asked for: every unknown key of a job once, grouped by source language. */
  ghost predicate Batched(jobs: seq<Job>, hits: map<Key, Entry>, order: seq<string>, pending: map<string, seq<Job>>) {
    && NoRepeats(order) && (forall l :: l in order <==> l in pending)
    && (forall l :: l in pending ==> Batch(jobs, hits, l, pending[l]))
    && forall j :: j in jobs && j.key !in hits ==> Awaited(j.key, pending)
  }

  ghost predicate Batch(jobs: seq<Job>, hits: map<Key, Entry>, language: string, batch: seq<Job>) {
    && batch != [] && NoRepeats(Keys(batch))
    && forall j :: j in batch ==> FirstWithKey(j, jobs) && j.key.sourceLanguage == language && j.key !in hits
  }

  /** No job before it has the same key. */
  ghost predicate FirstWithKey(job: Job, jobs: seq<Job>) {
    exists i :: 0 <= i < |jobs| && IsFirst(job, jobs, i)
  }

  predicate IsFirst(job: Job, jobs: seq<Job>, i: nat)
    requires i < |jobs|
  {
    jobs[i] == job && forall m :: 0 <= m < i ==> jobs[m].key != job.key
  }

  ghost predicate Awaited(key: Key, pending: map<string, seq<Job>>) {
    key.sourceLanguage in pending && key in Keys(pending[key.sourceLanguage])
  }

  /** The batches and the order in which their languages came up. */
  datatype Batches = Batches(order: seq<string>, of: map<string, seq<Job>>)

  /** A job's key joins the batch of its language, unless it is known or already in it. */
  function AddJob(b: Batches, job: Job, hits: map<Key, Entry>): Batches {
    if job.key in hits then b
    else
      var language := job.planned.language;
      var batch := if language in b.of then b.of[language] else [];
      Batches(if language in b.of then b.order else b.order + [language],
              b.of[language := if job.key in Keys(batch) then batch else batch + [job]])
  }

  function BatchesOf(jobs: seq<Job>, hits: map<Key, Entry>): (b: Batches)
    ensures forall l :: l in b.order ==> l in b.of
  {
    if jobs == [] then Batches([], map[]) else AddJob(BatchesOf(jobs[..|jobs| - 1], hits), jobs[|jobs| - 1], hits)
  }

  /** The batches ask for every unknown key once, for the first job that has it. */
  lemma {:induction false} BatchesAreRight(jobs: seq<Job>, hits: map<Key, Entry>)
    requires forall j :: j in jobs ==> j.key.sourceLanguage == j.planned.language
    ensures Batched(jobs, hits, BatchesOf(jobs, hits).order, BatchesOf(jobs, hits).of)
  {
    if jobs != [] {
      var init, job := jobs[..|jobs| - 1], jobs[|jobs| - 1];
      var b := BatchesOf(init, hits);
      assert job in jobs && forall j :: j in init ==> j in jobs;
      BatchesAreRight(init, hits);
      assert jobs == init + [job];
      Extended(jobs, init, job, hits, b, BatchesOf(jobs, hits));
    }
  }

  lemma Extended(jobs: seq<Job>, init: seq<Job>, job: Job, hits: map<Key, Entry>, b: Batches, more: Batches)
    requires Batched(init, hits, b.order, b.of) && job.key.sourceLanguage == job.planned.language
    requires jobs == init + [job] && more == AddJob(b, job, hits)
    ensures Batched(jobs, hits, more.order, more.of)
  {
    OneMoreJob(init, job, hits, b);
  }

  lemma OneMoreJob(jobs: seq<Job>, job: Job, hits: map<Key, Entry>, b: Batches)
    requires Batched(jobs, hits, b.order, b.of) && job.key.sourceLanguage == job.planned.language
    ensures var more := AddJob(b, job, hits); Batched(jobs + [job], hits, more.order, more.of)
  {
    MoreJobs(jobs, hits, b.order, b.of, job);
    if job.key !in hits { OneMoreUnknown(jobs, job, hits, b); }
  }

  lemma OneMoreUnknown(jobs: seq<Job>, job: Job, hits: map<Key, Entry>, b: Batches)
    requires Batched(jobs, hits, b.order, b.of) && job.key.sourceLanguage == job.planned.language && job.key !in hits
    requires forall l :: l in b.of ==> Batch(jobs + [job], hits, l, b.of[l])
    requires forall j :: j in jobs + [job] && j.key !in hits && j != job ==> Awaited(j.key, b.of)
    ensures var more := AddJob(b, job, hits); Batched(jobs + [job], hits, more.order, more.of)
  {
    var all, language := jobs + [job], job.planned.language;
    var batch := if language in b.of then b.of[language] else [];
    var grown := if job.key in Keys(batch) then batch else batch + [job];
    if job.key !in Keys(batch) { NewKeyIsFirst(jobs, job, hits, b); }
    AddToBatch(all, hits, language, batch, job);
    assert Batch(all, hits, language, grown);
    KeepAwaited(all, hits, b.of, job, grown);
  }

  lemma NewKeyIsFirst(jobs: seq<Job>, job: Job, hits: map<Key, Entry>, b: Batches)
    requires Batched(jobs, hits, b.order, b.of) && job.key !in hits && !Awaited(job.key, b.of)
    ensures FirstWithKey(job, jobs + [job])
  {
    forall m | 0 <= m < |jobs| ensures jobs[m].key != job.key { assert jobs[m] in jobs; }
    assert IsFirst(job, jobs + [job], |jobs|);
  }

  method PendingBatches(jobs: seq<Job>, hits: map<Key, Entry>) returns (b: Batches)
    ensures b == BatchesOf(jobs, hits)
  {
    b := Batches([], map[]);
    for i := 0 to |jobs|
      invariant b == BatchesOf(jobs[..i], hits)
    {
      assert jobs[..i + 1][..i] == jobs[..i];
      var job := jobs[i];
      if job.key !in hits {
        var language := job.planned.language;
        var batch := if language in b.of then b.of[language] else [];
        if language !in b.of {
          b := b.(order := b.order + [language]);
        }
        b := b.(of := b.of[language := if job.key in Keys(batch) then batch else batch + [job]]);
      }
    }
    assert jobs[..|jobs|] == jobs;
  }

  lemma MoreJobs(jobs: seq<Job>, hits: map<Key, Entry>, order: seq<string>, pending: map<string, seq<Job>>, job: Job)
    requires Batched(jobs, hits, order, pending)
    ensures forall l :: l in pending ==> Batch(jobs + [job], hits, l, pending[l])
    ensures job.key in hits ==> Batched(jobs + [job], hits, order, pending)
    ensures forall j :: j in jobs + [job] && j.key !in hits && j != job ==> Awaited(j.key, pending)
  {
    forall l | l in pending ensures Batch(jobs + [job], hits, l, pending[l]) {
      assert Batch(jobs, hits, l, pending[l]);
      forall j | j in pending[l] ensures FirstWithKey(j, jobs + [job]) {
        var i :| 0 <= i < |jobs| && IsFirst(j, jobs, i);
        assert IsFirst(j, jobs + [job], i);
      }
    }
  }

  lemma AddToBatch(jobs: seq<Job>, hits: map<Key, Entry>, language: string, batch: seq<Job>, job: Job)
    requires (batch == [] || Batch(jobs, hits, language, batch)) && job.key !in hits && job.key.sourceLanguage == language
    requires job.key !in Keys(batch) ==> FirstWithKey(job, jobs)
    ensures job.key !in Keys(batch) ==> Batch(jobs, hits, language, batch + [job])
    ensures Keys(batch + [job]) == Keys(batch) + [job.key]
  {
    assert Keys(batch + [job]) == Keys(batch) + [job.key];
    if job.key !in Keys(batch) {
      assert NoRepeats(Keys(batch) + [job.key]);
    }
  }

  lemma KeepAwaited(jobs: seq<Job>, hits: map<Key, Entry>, pending: map<string, seq<Job>>, job: Job, grown: seq<Job>)
    requires var language := job.key.sourceLanguage;
      var batch := if language in pending then pending[language] else [];
      grown == if job.key in Keys(batch) then batch else batch + [job]
    requires forall j :: j in jobs && j.key !in hits && j != job ==> Awaited(j.key, pending)
    ensures forall j :: j in jobs && j.key !in hits ==> Awaited(j.key, pending[job.key.sourceLanguage := grown])
  {
    var language := job.key.sourceLanguage;
    var batch := if language in pending then pending[language] else [];
    assert Keys(batch + [job]) == Keys(batch) + [job.key];
    assert Keys(batch) <= Keys(grown) && job.key in Keys(grown);
  }

  lemma {:induction false} SentOnce(jobs: seq<Job>, hits: map<Key, Entry>, order: seq<string>, pending: map<string, seq<Job>>)
    requires NoRepeats(order) && (forall l :: l in order ==> l in pending)
    requires forall l :: l in pending ==> Batch(jobs, hits, l, pending[l])
    ensures NoRepeats(SentKeys(order, pending))
    ensures forall k :: k in SentKeys(order, pending) ==> k.sourceLanguage in order && Unknown(k, jobs, hits)
    ensures forall k: Key :: k.sourceLanguage in order && Awaited(k, pending) ==> k in SentKeys(order, pending)
  {
    if order != [] {
      var front, last := order[..|order| - 1], order[|order| - 1];
      assert order == front + [last];
      SentOnce(jobs, hits, front, pending);
      var earlier, batch := SentKeys(front, pending), pending[last];
      forall k | k in Keys(batch) ensures k.sourceLanguage == last && Unknown(k, jobs, hits) {
        var i :| 0 <= i < |batch| && batch[i].key == k;
        assert batch[i] in batch;
      }
      forall i, j | 0 <= i < |earlier| && 0 <= j < |Keys(batch)| ensures earlier[i] != Keys(batch)[j] {
        assert earlier[i] in earlier && Keys(batch)[j] in Keys(batch);
        assert last !in front;
      }
    }
  }

  /** The key belongs to a job and the memory does not hold it. */
  ghost predicate Unknown(key: Key, jobs: seq<Job>, hits: map<Key, Entry>) {
    key !in hits && exists j :: j in jobs && j.key == key
  }

  // ---------------------------------------------------------------- the provider

  datatype Request = Request(texts: seq<string>, language: string, target: string)

  /** What a provider answers: anything, and it may depend on all it was asked before. */
  type Answers = (seq<Request>, Request) -> seq<string>

  /** The provider and the log of the requests made to it. */
  class Provider {
    const answers: Answers
    var log: seq<Request>

    constructor (answers: Answers)
      ensures this.answers == answers && log == []
    {
      this.answers, log := answers, [];
    }

    method Translate(texts: seq<string>, language: string, target: string) returns (results: seq<string>)
      modifies this`log
      ensures log == old(log) + [Request(texts, language, target)]
      ensures results == answers(old(log), Request(texts, language, target))
    {
      results := answers(log, Request(texts, language, target));
      log := log + [Request(texts, language, target)];
    }
  }

  function Texts(batch: seq<Job>): seq<string> {
    seq(|batch|, i requires 0 <= i < |batch| => batch[i].planned.masked.text)
  }

  predicate Listed(b: Batches) { forall l :: l in b.order ==> l in b.of }

  function RequestAt(b: Batches, target: string, n: nat): Request
    requires Listed(b) && n < |b.order|
  {
    Request(Texts(b.of[b.order[n]]), b.order[n], target)
  }

  /** One request per source language, in the order the languages came up. */
  function Asked(b: Batches, target: string, n: nat): seq<Request>
    requires Listed(b) && n <= |b.order|
  {
    seq(n, k requires 0 <= k < n => RequestAt(b, target, k))
  }

  function AnswerTo(b: Batches, answers: Answers, log: seq<Request>, target: string, n: nat): seq<string>
    requires Listed(b) && n < |b.order|
  {
    answers(log + Asked(b, target, n), RequestAt(b, target, n))
  }

  /** Each answer under the key it was asked for. */
  function Zip(keys: seq<Key>, results: seq<string>): (m: map<Key, string>)
    requires |keys| == |results|
    ensures forall k :: k in m <==> k in keys
  {
    if keys == [] then map[]
    else
      var n := |keys| - 1;
      assert keys == keys[..n] + [keys[n]];
      Zip(keys[..n], results[..n])[keys[n] := results[n]]
  }

  lemma {:induction false} ZipAt(keys: seq<Key>, results: seq<string>, i: nat)
    requires |keys| == |results| && NoRepeats(keys) && i < |keys|
    ensures Zip(keys, results)[keys[i]] == results[i]
  {
    if i < |keys| - 1 { ZipAt(keys[..|keys| - 1], results[..|keys| - 1], i); }
  }

  /** The texts known after the first requests, and whether an answer had the wrong length. */
  datatype Heard = Heard(texts: map<Key, string>, truncated: bool)

  function HeardTo(b: Batches, hits: map<Key, Entry>, answers: Answers, log: seq<Request>, target: string, n: nat): Heard
    requires Listed(b) && n <= |b.order|
  {
    if n == 0 then Heard(map k | k in hits :: hits[k].text, false)
    else
      var before := HeardTo(b, hits, answers, log, target, n - 1);
      var keys, results := Keys(b.of[b.order[n - 1]]), AnswerTo(b, answers, log, target, n - 1);
      if |results| != |keys| then before.(truncated := true) else before.(texts := before.texts + Zip(keys, results))
  }

  method Record(keys: seq<Key>, results: seq<string>, texts: map<Key, string>) returns (more: map<Key, string>)
    requires |keys| == |results|
    ensures more == texts + Zip(keys, results)
  {
    more := texts;
    for i := 0 to |keys|
      invariant more == texts + Zip(keys[..i], results[..i])
    {
      assert keys[..i + 1][..i] == keys[..i] && results[..i + 1][..i] == results[..i];
      assert texts + Zip(keys[..i + 1], results[..i + 1]) == (texts + Zip(keys[..i], results[..i]))[keys[i] := results[i]];
      more := more[keys[i] := results[i]];
    }
    assert keys[..|keys|] == keys && results[..|keys|] == results;
  }

  lemma AskedNext(b: Batches, target: string, n: nat)
    requires Listed(b) && n < |b.order|
    ensures Asked(b, target, n + 1) == Asked(b, target, n) + [RequestAt(b, target, n)]
    ensures |SentKeys(b.order[..n + 1], b.of)| == |SentKeys(b.order[..n], b.of)| + |b.of[b.order[n]]|
  {
    assert b.order[..n + 1][..n] == b.order[..n];
  }

  /** One request per source language; an answer of the wrong length is dropped and flagged. */
  method Ask(hits: map<Key, Entry>, b: Batches, provider: Provider, target: string)
    returns (texts: map<Key, string>, truncated: bool, segments: nat)
    requires Listed(b)
    modifies provider`log
    ensures provider.log == old(provider.log) + Asked(b, target, |b.order|)
    ensures Heard(texts, truncated) == HeardTo(b, hits, provider.answers, old(provider.log), target, |b.order|)
    ensures segments == |SentKeys(b.order, b.of)|
  {
    texts := map k | k in hits :: hits[k].text;
    truncated, segments := false, 0;
    for n := 0 to |b.order|
      invariant provider.log == old(provider.log) + Asked(b, target, n)
      invariant Heard(texts, truncated) == HeardTo(b, hits, provider.answers, old(provider.log), target, n)
      invariant segments == |SentKeys(b.order[..n], b.of)|
    {
      AskedNext(b, target, n);
      var batch := b.of[b.order[n]];
      segments := segments + |batch|;
      var results := provider.Translate(Texts(batch), b.order[n], target);
      if |results| != |batch| {
        truncated := true;
      } else {
        texts := Record(Keys(batch), results, texts);
      }
    }
    assert b.order[..|b.order|] == b.order;
  }

  ghost predicate WellBatched(b: Batches, hits: map<Key, Entry>) {
    && NoRepeats(b.order) && Listed(b)
    && forall l :: l in b.of ==> NoRepeats(Keys(b.of[l])) && forall k :: k in Keys(b.of[l]) ==> k.sourceLanguage == l && k !in hits
  }

  /** The keys of a batch have exactly its answer, or none of them has any if that is too long or too short. */
  ghost predicate BatchHeard(b: Batches, answers: Answers, log: seq<Request>, target: string, texts: map<Key, string>, n: nat)
    requires Listed(b) && n < |b.order|
  {
    var keys, results := Keys(b.of[b.order[n]]), AnswerTo(b, answers, log, target, n);
    if |results| == |keys| then forall i :: 0 <= i < |keys| ==> keys[i] in texts && texts[keys[i]] == results[i]
    else forall k :: k in keys ==> k !in texts
  }

  predicate Short(b: Batches, answers: Answers, log: seq<Request>, target: string, n: nat)
    requires Listed(b) && n < |b.order|
  {
    |AnswerTo(b, answers, log, target, n)| != |b.of[b.order[n]]|
  }

  /** What is known after asking: the memory's texts unchanged, each batch's answer under its keys,
      nothing else; and the run is flagged exactly when an answer was dropped. */
  ghost predicate HeardRight(b: Batches, hits: map<Key, Entry>, answers: Answers, log: seq<Request>, target: string, n: nat, heard: Heard)
    requires Listed(b) && n <= |b.order|
  {
    && HitsAndSent(hits, SentKeys(b.order[..n], b.of), heard.texts)
    && (forall m :: 0 <= m < n ==> BatchHeard(b, answers, log, target, heard.texts, m))
    && (heard.truncated <==> exists m :: 0 <= m < n && Short(b, answers, log, target, m))
  }

  predicate HitsAndSent(hits: map<Key, Entry>, sent: seq<Key>, texts: map<Key, string>) {
    && (forall k :: k in hits ==> k in texts && texts[k] == hits[k].text)
    && (forall k :: k in texts ==> k in hits || k in sent)
  }

  lemma {:induction false} AnswersKept(b: Batches, hits: map<Key, Entry>, answers: Answers, log: seq<Request>, target: string, n: nat)
    requires WellBatched(b, hits) && n <= |b.order|
    ensures HeardRight(b, hits, answers, log, target, n, HeardTo(b, hits, answers, log, target, n))
  {
    if n > 0 {
      AnswersKept(b, hits, answers, log, target, n - 1);
      BatchRecorded(b, hits, answers, log, target, n - 1, HeardTo(b, hits, answers, log, target, n - 1));
    }
  }

  lemma BatchRecorded(b: Batches, hits: map<Key, Entry>, answers: Answers, log: seq<Request>, target: string, n: nat, before: Heard)
    requires WellBatched(b, hits) && n < |b.order| && HeardRight(b, hits, answers, log, target, n, before)
    ensures var keys, results := Keys(b.of[b.order[n]]), AnswerTo(b, answers, log, target, n);
            HeardRight(b, hits, answers, log, target, n + 1,
              if |results| != |keys| then before.(truncated := true) else before.(texts := before.texts + Zip(keys, results)))
  {
    var keys, results := Keys(b.of[b.order[n]]), AnswerTo(b, answers, log, target, n);
    var texts := if |results| != |keys| then before.texts else before.texts + Zip(keys, results);
    SentGrows(b, hits, n, before.texts, texts);
    AllHeard(b, hits, answers, log, target, n, before.texts);
    StillFlagged(b, answers, log, target, n, before.truncated);
    var next := Heard(texts, before.truncated || |results| != |keys|);
    assert Short(b, answers, log, target, n) <==> |results| != |keys|;
    assert HitsAndSent(hits, SentKeys(b.order[..n + 1], b.of), next.texts);
    assert HeardRight(b, hits, answers, log, target, n + 1, next);
  }

  lemma SentGrows(b: Batches, hits: map<Key, Entry>, n: nat, texts: map<Key, string>, more: map<Key, string>)
    requires WellBatched(b, hits) && n < |b.order| && HitsAndSent(hits, SentKeys(b.order[..n], b.of), texts)
    requires forall k :: k !in Keys(b.of[b.order[n]]) ==> (k in more <==> k in texts) && (k in texts ==> more[k] == texts[k])
    ensures HitsAndSent(hits, SentKeys(b.order[..n + 1], b.of), more)
  {
    assert b.order[n] in b.order;
    assert b.order[..n + 1][..n] == b.order[..n];
    assert SentKeys(b.order[..n + 1], b.of) == SentKeys(b.order[..n], b.of) + Keys(b.of[b.order[n]]);
  }

  lemma AllHeard(b: Batches, hits: map<Key, Entry>, answers: Answers, log: seq<Request>, target: string, n: nat, texts: map<Key, string>)
    requires WellBatched(b, hits) && n < |b.order| && HitsAndSent(hits, SentKeys(b.order[..n], b.of), texts)
    requires forall m :: 0 <= m < n ==> BatchHeard(b, answers, log, target, texts, m)
    ensures var keys, results := Keys(b.of[b.order[n]]), AnswerTo(b, answers, log, target, n);
            var more := if |results| != |keys| then texts else texts + Zip(keys, results);
            forall m :: 0 <= m < n + 1 ==> BatchHeard(b, answers, log, target, more, m)
  {
    var keys, results := Keys(b.of[b.order[n]]), AnswerTo(b, answers, log, target, n);
    var more := if |results| != |keys| then texts else texts + Zip(keys, results);
    assert b.order[n] in b.order;
    OtherBatches(b, n);
    NewBatch(b, hits, answers, log, target, n, texts);
    forall m | 0 <= m < n + 1 ensures BatchHeard(b, answers, log, target, more, m) {
      if m < n { KeptBatch(b, answers, log, target, m, n, texts, more); }
    }
  }

  lemma NewBatch(b: Batches, hits: map<Key, Entry>, answers: Answers, log: seq<Request>, target: string, n: nat, texts: map<Key, string>)
    requires WellBatched(b, hits) && n < |b.order| && forall k :: k in Keys(b.of[b.order[n]]) ==> k !in texts
    ensures var keys, results := Keys(b.of[b.order[n]]), AnswerTo(b, answers, log, target, n);
            BatchHeard(b, answers, log, target, if |results| != |keys| then texts else texts + Zip(keys, results), n)
  {
    var keys, results := Keys(b.of[b.order[n]]), AnswerTo(b, answers, log, target, n);
    if |results| == |keys| {
      assert b.order[n] in b.order;
      forall i | 0 <= i < |keys| ensures (texts + Zip(keys, results))[keys[i]] == results[i] { ZipAt(keys, results, i); }
    }
  }

  lemma KeptBatch(b: Batches, answers: Answers, log: seq<Request>, target: string, m: nat, n: nat,
                  texts: map<Key, string>, more: map<Key, string>)
    requires NoRepeats(b.order) && Listed(b) && m < n < |b.order| && BatchHeard(b, answers, log, target, texts, m)
    requires forall l :: l in b.of ==> forall k :: k in Keys(b.of[l]) ==> k.sourceLanguage == l
    requires forall k :: k !in Keys(b.of[b.order[n]]) ==> (k in more <==> k in texts) && (k in texts ==> more[k] == texts[k])
    ensures BatchHeard(b, answers, log, target, more, m)
  {
    LanguagesDiffer(b, m, n);
    var keys := Keys(b.of[b.order[m]]);
    assert forall i :: 0 <= i < |keys| ==> keys[i] in keys;
  }

  lemma StillFlagged(b: Batches, answers: Answers, log: seq<Request>, target: string, n: nat, truncated: bool)
    requires Listed(b) && n < |b.order| && (truncated <==> exists m :: 0 <= m < n && Short(b, answers, log, target, m))
    ensures truncated || Short(b, answers, log, target, n) <==> exists m :: 0 <= m < n + 1 && Short(b, answers, log, target, m)
  {
    if m :| 0 <= m < n + 1 && Short(b, answers, log, target, m) { assert m < n || m == n; }
  }

  lemma LanguagesDiffer(b: Batches, m: nat, n: nat)
    requires NoRepeats(b.order) && Listed(b) && m < |b.order| && n < |b.order| && m != n
    requires forall l :: l in b.of ==> forall k :: k in Keys(b.of[l]) ==> k.sourceLanguage == l
    ensures forall k :: k in Keys(b.of[b.order[m]]) ==> k !in Keys(b.of[b.order[n]])
  {
    assert b.order[m] in b.order && b.order[n] in b.order && b.order[m] != b.order[n];
  }

  lemma OtherBatches(b: Batches, n: nat)
    requires NoRepeats(b.order) && Listed(b) && n < |b.order|
    requires forall l :: l in b.of ==> forall k :: k in Keys(b.of[l]) ==> k.sourceLanguage == l
    ensures forall k :: k in Keys(b.of[b.order[n]]) ==> k !in SentKeys(b.order[..n], b.of)
  {
    forall k | k in SentKeys(b.order[..n], b.of) ensures k.sourceLanguage in b.order[..n] { SentLanguage(b, n, k); }
    assert b.order[n] in b.order && b.order[n] !in b.order[..n];
  }

  lemma {:induction false} SentLanguage(b: Batches, n: nat, key: Key)
    requires Listed(b) && n <= |b.order| && key in SentKeys(b.order[..n], b.of)
    requires forall l :: l in b.of ==> forall k :: k in Keys(b.of[l]) ==> k.sourceLanguage == l
    ensures key.sourceLanguage in b.order[..n]
  {
    assert b.order[..n][..n - 1] == b.order[..n - 1];
    assert b.order[..n] == b.order[..n - 1] + [b.order[n - 1]];
    if key in SentKeys(b.order[..n - 1], b.of) { SentLanguage(b, n - 1, key); } else { assert b.order[n - 1] in b.order; }
  }

  /** The same in terms of all keys sent. */
  ghost predicate Answered(hits: map<Key, Entry>, sent: seq<Key>, texts: map<Key, string>, truncated: bool) {
    && (forall k :: k in hits ==> k in texts && texts[k] == hits[k].text)
    && (forall k :: k in texts ==> k in hits || k in sent)
    && (!truncated ==> forall k :: k in sent ==> k in texts)
    && (truncated ==> sent != [])
  }

  lemma BatchedWell(jobs: seq<Job>, hits: map<Key, Entry>, b: Batches)
    requires Batched(jobs, hits, b.order, b.of)
    ensures WellBatched(b, hits)
  {
    forall l, k | l in b.of && k in Keys(b.of[l]) ensures k.sourceLanguage == l && k !in hits {
      assert Batch(jobs, hits, l, b.of[l]);
      var i :| 0 <= i < |b.of[l]| && b.of[l][i].key == k;
      assert b.of[l][i] in b.of[l];
    }
  }

  lemma {:induction false} SentInBatch(b: Batches, n: nat, key: Key) returns (m: nat)
    requires Listed(b) && n <= |b.order| && key in SentKeys(b.order[..n], b.of)
    ensures m < n && key in Keys(b.of[b.order[m]])
  {
    assert b.order[..n][..n - 1] == b.order[..n - 1];
    if key in SentKeys(b.order[..n - 1], b.of) { m := SentInBatch(b, n - 1, key); } else { m := n - 1; }
  }

  lemma HeardAnswers(jobs: seq<Job>, b: Batches, hits: map<Key, Entry>, answers: Answers, log: seq<Request>, target: string)
    requires Batched(jobs, hits, b.order, b.of) && Listed(b)
    ensures var heard := HeardTo(b, hits, answers, log, target, |b.order|);
            Answered(hits, SentKeys(b.order, b.of), heard.texts, heard.truncated)
  {
    var n, heard := |b.order|, HeardTo(b, hits, answers, log, target, |b.order|);
    BatchedWell(jobs, hits, b);
    AnswersKept(b, hits, answers, log, target, n);
    assert b.order[..n] == b.order;
    if heard.truncated {
      var last := b.order[n - 1];
      assert last in b.order && Batch(jobs, hits, last, b.of[last]);
      assert |Keys(b.of[last])| > 0;
    } else {
      forall k | k in SentKeys(b.order, b.of) ensures k in heard.texts {
        var m := SentInBatch(b, n, k);
        assert BatchHeard(b, answers, log, target, heard.texts, m) && !Short(b, answers, log, target, m);
      }
    }
  }

  // ---------------------------------------------------------------- what is sent

  /** The texts asked for, each with its language. */
  function Pairs(requests: seq<Request>): seq<(string, string)> {
    if requests == [] then []
    else Pairs(requests[..|requests| - 1]) + PairsOf(requests[|requests| - 1])
  }

  function PairsOf(request: Request): seq<(string, string)> {
    seq(|request.texts|, i requires 0 <= i < |request.texts| => (request.language, request.texts[i]))
  }

  function KeyOfPair(pair: (string, string), setting: Setting, normalizedHash: string -> string): Key {
    Key(pair.0, setting.target, normalizedHash(pair.1), setting.provider, setting.modelVersion, setting.glossaryVersion)
  }

  function KeysOfPairs(pairs: seq<(string, string)>, setting: Setting, normalizedHash: string -> string): seq<Key> {
    seq(|pairs|, i requires 0 <= i < |pairs| => KeyOfPair(pairs[i], setting, normalizedHash))
  }

  predicate Keyed(job: Job, setting: Setting, normalizedHash: string -> string) {
    job.key == KeyOf(job.planned, setting, normalizedHash)
  }

  /** What is sent and under which keys agree text by text. */
  lemma {:induction false} SentPairs(jobs: seq<Job>, hits: map<Key, Entry>, b: Batches, setting: Setting, normalizedHash: string -> string, n: nat)
    requires Batched(jobs, hits, b.order, b.of) && Listed(b) && n <= |b.order|
    requires forall j :: j in jobs ==> Keyed(j, setting, normalizedHash)
    ensures KeysOfPairs(Pairs(Asked(b, setting.target, n)), setting, normalizedHash) == SentKeys(b.order[..n], b.of)
  {
    if n > 0 {
      SentPairs(jobs, hits, b, setting, normalizedHash, n - 1);
      var earlier, last := Asked(b, setting.target, n - 1), RequestAt(b, setting.target, n - 1);
      assert Asked(b, setting.target, n) == earlier + [last];
      SentSnoc(b, n - 1);
      BatchPairs(jobs, hits, b, setting, normalizedHash, n - 1);
      MorePairs(earlier, last, Asked(b, setting.target, n), setting, normalizedHash);
    }
  }

  lemma MorePairs(earlier: seq<Request>, last: Request, all: seq<Request>, setting: Setting, normalizedHash: string -> string)
    requires all == earlier + [last]
    ensures KeysOfPairs(Pairs(all), setting, normalizedHash)
         == KeysOfPairs(Pairs(earlier), setting, normalizedHash) + KeysOfPairs(PairsOf(last), setting, normalizedHash)
  {
    PairsSnoc(earlier, last);
    KeysConcat(Pairs(earlier), PairsOf(last), setting, normalizedHash);
  }

  lemma PairsSnoc(requests: seq<Request>, request: Request)
    ensures Pairs(requests + [request]) == Pairs(requests) + PairsOf(request)
  {
    assert (requests + [request])[..|requests|] == requests;
  }

  lemma SentSnoc(b: Batches, n: nat)
    requires Listed(b) && n < |b.order|
    ensures SentKeys(b.order[..n + 1], b.of) == SentKeys(b.order[..n], b.of) + Keys(b.of[b.order[n]])
  {
    assert b.order[..n + 1][..n] == b.order[..n];
  }

  lemma KeysConcat(a: seq<(string, string)>, b: seq<(string, string)>, setting: Setting, normalizedHash: string -> string)
    ensures KeysOfPairs(a + b, setting, normalizedHash) == KeysOfPairs(a, setting, normalizedHash) + KeysOfPairs(b, setting, normalizedHash)
  {
  }

  lemma BatchPairs(jobs: seq<Job>, hits: map<Key, Entry>, b: Batches, setting: Setting, normalizedHash: string -> string, n: nat)
    requires Batched(jobs, hits, b.order, b.of) && Listed(b) && n < |b.order|
    requires forall j :: j in jobs ==> Keyed(j, setting, normalizedHash)
    ensures KeysOfPairs(PairsOf(RequestAt(b, setting.target, n)), setting, normalizedHash) == Keys(b.of[b.order[n]])
  {
    var batch := b.of[b.order[n]];
    assert b.order[n] in b.order && Batch(jobs, hits, b.order[n], batch);
    forall i | 0 <= i < |batch| ensures KeyOfPair(PairsOf(RequestAt(b, setting.target, n))[i], setting, normalizedHash) == batch[i].key {
      assert batch[i] in batch && FirstWithKey(batch[i], jobs);
      assert batch[i] in jobs;
    }
  }

  // ---------------------------------------------------------------- accepting translations

  predicate Passes(job: Job, texts: map<Key, string>, check: Check) {
    job.key in texts && check(job.planned.masked, texts[job.key]).ok
  }

  predicate Fails(job: Job, texts: map<Key, string>, check: Check) {
    job.key in texts && !check(job.planned.masked, texts[job.key]).ok
  }

  /** The accepted HTML of every slot. */
  function Finals(jobs: seq<Job>, texts: map<Key, string>, check: Check): map<(string, nat), string> {
    if jobs == [] then map[]
    else
      var earlier, job := Finals(jobs[..|jobs| - 1], texts, check), jobs[|jobs| - 1];
      if Passes(job, texts, check) then earlier[job.Slot() := check(job.planned.masked, texts[job.key]).html]
      else earlier
  }

  /** The entries to remember: one for each key that was unknown and passed for some job. */
  function NewEntries(jobs: seq<Job>, texts: map<Key, string>, check: Check, hits: map<Key, Entry>): (added: seq<Entry>)
    ensures forall e :: e in added ==>
      e.key !in hits && e.key in texts && e.text == texts[e.key] && exists j :: j in jobs && j.key == e.key && Passes(j, texts, check)
    ensures forall j :: j in jobs && Passes(j, texts, check) && j.key !in hits ==> Entry(j.key, texts[j.key]) in added
  {
    if jobs == [] then []
    else
      var earlier, job := NewEntries(jobs[..|jobs| - 1], texts, check, hits), jobs[|jobs| - 1];
      assert jobs == jobs[..|jobs| - 1] + [job];
      if Passes(job, texts, check) && job.key !in hits && Entry(job.key, texts[job.key]) !in earlier then
        earlier + [Entry(job.key, texts[job.key])]
      else earlier
  }

  method Accept(jobs: seq<Job>, texts: map<Key, string>, check: Check, hits: map<Key, Entry>)
    returns (finals: map<(string, nat), string>, added: seq<Entry>, failed: bool)
    ensures finals == Finals(jobs, texts, check)
    ensures added == NewEntries(jobs, texts, check, hits)
    ensures failed == AnyFails(jobs, texts, check)
  {
    finals, added, failed := map[], [], false;
    for i := 0 to |jobs|
      invariant finals == Finals(jobs[..i], texts, check)
      invariant added == NewEntries(jobs[..i], texts, check, hits)
      invariant failed <==> exists j :: j in jobs[..i] && Fails(j, texts, check)
    {
      var job := jobs[i];
      assert jobs[..i + 1][..i] == jobs[..i] && jobs[..i + 1] == jobs[..i] + [job];
      assert forall j :: j in jobs[..i + 1] <==> j in jobs[..i] || j == job;
      if job.key !in texts {
        continue;
      }
      var verdict := check(job.planned.masked, texts[job.key]);
      if !verdict.ok {
        assert job in jobs[..i + 1] && Fails(job, texts, check);
        failed := true;
        continue;
      }
      finals := finals[job.Slot() := verdict.html];
      if job.key !in hits && Entry(job.key, texts[job.key]) !in added {
        added := added + [Entry(job.key, texts[job.key])];
      }
    }
    assert jobs[..|jobs|] == jobs;
  }

  lemma FinalsOneMore(front: seq<Job>, job: Job, texts: map<Key, string>, check: Check)
    requires job.Slot() !in Finals(front, texts, check)
    ensures var all := Finals(front + [job], texts, check);
            && |all| == |Finals(front, texts, check)| + (if Passes(job, texts, check) then 1 else 0)
            && forall s :: s in all <==> s in Finals(front, texts, check) || (s == job.Slot() && Passes(job, texts, check))
  {
    assert (front + [job])[..|front|] == front;
  }

  lemma {:induction false} FinalsOfSlots(jobs: seq<Job>, texts: map<Key, string>, check: Check)
    requires DistinctSlots(jobs)
    ensures forall s :: s in Finals(jobs, texts, check) ==> exists j :: j in jobs && j.Slot() == s && Passes(j, texts, check)
    ensures |Finals(jobs, texts, check)| <= |jobs|
    ensures |Finals(jobs, texts, check)| == |jobs| <==> forall j :: j in jobs ==> Passes(j, texts, check)
  {
    if jobs != [] {
      var front, job := jobs[..|jobs| - 1], jobs[|jobs| - 1];
      FinalsOfSlots(front, texts, check);
      assert jobs == front + [job];
      assert job.Slot() !in Finals(front, texts, check);
      FinalsOneMore(front, job, texts, check);
      assert forall j :: j in jobs <==> j in front || j == job;
    }
  }

  // ---------------------------------------------------------------- the outcome

  datatype Outcome = Outcome(notRequired: bool, complete: bool, fields: map<string, string>, flags: set<Flag>,
                             memoryHits: nat, providerSegments: nat)

  function Translations(f: FieldPlan, finals: map<(string, nat), string>): seq<string> {
    seq(|f.segments|, k requires 0 <= k < |f.segments| =>
      var p := f.segments[k]; if (f.name, p.index) in finals then finals[(f.name, p.index)] else p.html)
  }

  function FieldText(f: FieldPlan, finals: map<(string, nat), string>, unescape: string -> string): string
    requires FieldValid(f)
  {
    var text := Fill(f.document.parts, Translations(f, finals));
    if f.name == "title" || f.name == "lead" then unescape(text) else text
  }

  function Assembled(fields: seq<FieldPlan>, finals: map<(string, nat), string>, unescape: string -> string)
    : map<string, string>
    requires forall i :: 0 <= i < |fields| ==> FieldValid(fields[i])
  {
    if fields == [] then map[]
    else
      var last := fields[|fields| - 1];
      Assembled(fields[..|fields| - 1], finals, unescape)[last.name := FieldText(last, finals, unescape)]
  }

  function HitCount(jobs: seq<Job>, hits: map<Key, Entry>): nat {
    if jobs == [] then 0
    else HitCount(jobs[..|jobs| - 1], hits) + if jobs[|jobs| - 1].key in hits then 1 else 0
  }

  /** What a run works with beside plan, memory and provider. */
  datatype Tools = Tools(setting: Setting, normalizedHash: string -> string, check: Check, unescape: string -> string)

  /** The memory and the request log after a run, and its report. */
  datatype Ran = Ran(memory: map<Key, Entry>, log: seq<Request>, outcome: Outcome)

  function HeardBy(jobs: seq<Job>, tools: Tools, answers: Answers, before: map<Key, Entry>, log: seq<Request>): Heard {
    var hits := Hits(before, jobs);
    var b := BatchesOf(jobs, hits);
    HeardTo(b, hits, answers, log, tools.setting.target, |b.order|)
  }

  function SentBy(jobs: seq<Job>, before: map<Key, Entry>): seq<Key> {
    var b := BatchesOf(jobs, Hits(before, jobs));
    SentKeys(b.order, b.of)
  }

  function RequestsOf(jobs: seq<Job>, tools: Tools, before: map<Key, Entry>): seq<Request> {
    var b := BatchesOf(jobs, Hits(before, jobs));
    Asked(b, tools.setting.target, |b.order|)
  }

  /** One run of a plan: what it asks, remembers and reports, given the memory and what the provider
      was asked before. */
  function Run(plan: Plan, tools: Tools, answers: Answers, before: map<Key, Entry>, log: seq<Request>): Ran
    requires PlanValid(plan)
  {
    if plan.notRequired then Ran(before, log, Outcome(true, true, map[], plan.flags, 0, 0))
    else
      var jobs := Jobs(plan, tools.setting, tools.normalizedHash);
      var heard := HeardBy(jobs, tools, answers, before, log);
      Ran(Remembered(before, NewEntries(jobs, heard.texts, tools.check, Hits(before, jobs))),
          log + RequestsOf(jobs, tools, before),
          OutcomeOf(plan, jobs, tools, Hits(before, jobs), heard, |SentBy(jobs, before)|))
  }

  function Hits(before: map<Key, Entry>, jobs: seq<Job>): map<Key, Entry> {
    map k | k in before && Wanted(k, jobs) :: before[k]
  }

  /** The report: complete only when every job's translation passed and nothing was unsupported or
      cut short; only then are the fields put together. */
  function OutcomeOf(plan: Plan, jobs: seq<Job>, tools: Tools, hits: map<Key, Entry>, heard: Heard, sent: nat): Outcome
    requires PlanValid(plan)
  {
    var finals := Finals(jobs, heard.texts, tools.check);
    var flags := FlagsOf(plan, heard.truncated, AnyFails(jobs, heard.texts, tools.check));
    var complete := |finals| == |jobs| && LanguageUnsupported !in flags && ProviderTruncated !in flags;
    Outcome(false, complete, if complete then Assembled(plan.fields, finals, tools.unescape) else map[], flags,
            HitCount(jobs, hits), sent)
  }

  predicate AnyFails(jobs: seq<Job>, texts: map<Key, string>, check: Check) { exists j :: j in jobs && Fails(j, texts, check) }

  function FlagsOf(plan: Plan, truncated: bool, failed: bool): set<Flag> {
    plan.flags + (if truncated then {ProviderTruncated} else {}) + (if failed then {PreservationFailed} else {})
  }

  predicate Wanted(key: Key, jobs: seq<Job>) { exists j :: j in jobs && j.key == key }

  method Assemble(fields: seq<FieldPlan>, finals: map<(string, nat), string>, unescape: string -> string)
    returns (assembled: map<string, string>)
    requires forall i :: 0 <= i < |fields| ==> FieldValid(fields[i])
    ensures assembled == Assembled(fields, finals, unescape)
  {
    assembled := map[];
    for i := 0 to |fields|
      invariant assembled == Assembled(fields[..i], finals, unescape)
    {
      assert fields[..i + 1][..i] == fields[..i];
      var result := Reassemble(fields[i].document, Translations(fields[i], finals));
      var text := result.value;
      assembled := assembled[fields[i].name :=
        if fields[i].name == "title" || fields[i].name == "lead" then unescape(text) else text];
    }
    assert fields[..|fields|] == fields;
  }

  /** One run: memory first, then the provider for what is missing, then the preservation check for
      every text; what passed is remembered even when the whole does not complete. */
  method ExecutePlan(plan: Plan, tools: Tools, memory: Memory, provider: Provider) returns (outcome: Outcome)
    requires PlanValid(plan)
    modifies memory, provider`log
    ensures Ran(memory.entries, provider.log, outcome)
         == Run(plan, tools, provider.answers, old(memory.entries), old(provider.log))
  {
    if plan.notRequired {
      return Outcome(true, true, map[], plan.flags, 0, 0);
    }
    var jobs := Jobs(plan, tools.setting, tools.normalizedHash);
    var hits := memory.GetMany(set j | j in jobs :: j.key);
    assert hits == Hits(memory.entries, jobs);
    var b := PendingBatches(jobs, hits);
    var texts, truncated, segments := Ask(hits, b, provider, tools.setting.target);
    assert Heard(texts, truncated) == HeardBy(jobs, tools, provider.answers, memory.entries, old(provider.log));
    var finals, added, failed := Accept(jobs, texts, tools.check, hits);
    memory.PutMany(added);
    outcome := Report(plan, jobs, tools, hits, Heard(texts, truncated), segments, finals, failed, truncated);
  }

  method Report(plan: Plan, jobs: seq<Job>, tools: Tools, hits: map<Key, Entry>, ghost heard: Heard, segments: nat,
                finals: map<(string, nat), string>, failed: bool, truncated: bool)
    returns (outcome: Outcome)
    requires PlanValid(plan) && finals == Finals(jobs, heard.texts, tools.check) && truncated == heard.truncated
    requires failed == AnyFails(jobs, heard.texts, tools.check)
    ensures outcome == OutcomeOf(plan, jobs, tools, hits, heard, segments)
  {
    var flags := FlagsOf(plan, truncated, failed);
    var memoryHits := CountHits(jobs, hits);
    if |finals| != |jobs| || LanguageUnsupported in flags || ProviderTruncated in flags {
      outcome := Outcome(false, false, map[], flags, memoryHits, segments);
    } else {
      var assembled := Assemble(plan.fields, finals, tools.unescape);
      outcome := Outcome(false, true, assembled, flags, memoryHits, segments);
    }
  }

  method CountHits(jobs: seq<Job>, hits: map<Key, Entry>) returns (count: nat)
    ensures count == HitCount(jobs, hits)
  {
    count := 0;
    for i := 0 to |jobs|
      invariant count == HitCount(jobs[..i], hits)
    {
      assert jobs[..i + 1][..i] == jobs[..i];
      if jobs[i].key in hits {
        count := count + 1;
      }
    }
    assert jobs[..|jobs|] == jobs;
  }

  // ---------------------------------------------------------------- what runs guarantee

  /** The entry's text passed the preservation check of a job with its key. */
  ghost predicate PassedFor(entry: Entry, jobs: seq<Job>, check: Check) {
    exists j :: j in jobs && j.key == entry.key && check(j.planned.masked, entry.text).ok
  }

  /** The run's memory, texts and batches, put together. */
  lemma RunFacts(plan: Plan, tools: Tools, answers: Answers, before: map<Key, Entry>, log: seq<Request>)
    requires PlanValid(plan)
    ensures var jobs := Jobs(plan, tools.setting, tools.normalizedHash);
            var heard := HeardBy(jobs, tools, answers, before, log);
            && Answered(Hits(before, jobs), SentBy(jobs, before), heard.texts, heard.truncated)
            && NoRepeats(SentBy(jobs, before))
            && (forall k :: k in SentBy(jobs, before) ==> Unknown(k, jobs, Hits(before, jobs)))
            && (forall j :: j in jobs && j.key !in Hits(before, jobs) ==> j.key in SentBy(jobs, before))
            && KeysOfPairs(Pairs(RequestsOf(jobs, tools, before)), tools.setting, tools.normalizedHash) == SentBy(jobs, before)
  {
    var jobs := Jobs(plan, tools.setting, tools.normalizedHash);
    var hits := Hits(before, jobs);
    var b := BatchesOf(jobs, hits);
    BatchesAreRight(jobs, hits);
    SentOnce(jobs, hits, b.order, b.of);
    HeardAnswers(jobs, b, hits, answers, log, tools.setting.target);
    SentPairs(jobs, hits, b, tools.setting, tools.normalizedHash, |b.order|);
    assert b.order[..|b.order|] == b.order;
    forall j | j in jobs && j.key !in hits ensures j.key in SentKeys(b.order, b.of) { assert Awaited(j.key, b.of); }
  }

  /** What the run sent: nothing the memory held, every other key of a job, and no text twice for a
      language. */
  lemma NothingSentTwice(plan: Plan, tools: Tools, answers: Answers, before: map<Key, Entry>, log: seq<Request>)
    requires PlanValid(plan) && !plan.notRequired
    ensures var ran, jobs := Run(plan, tools, answers, before, log), Jobs(plan, tools.setting, tools.normalizedHash);
            && log <= ran.log
            && var sent := Pairs(ran.log[|log|..]);
               var keys := KeysOfPairs(sent, tools.setting, tools.normalizedHash);
            && |sent| == ran.outcome.providerSegments
            && NoRepeats(sent) && NoRepeats(keys)
            && forall k :: k in keys <==> k !in before && Wanted(k, jobs)
  {
    var ran, jobs := Run(plan, tools, answers, before, log), Jobs(plan, tools.setting, tools.normalizedHash);
    RunFacts(plan, tools, answers, before, log);
    var requests := RequestsOf(jobs, tools, before);
    assert ran.log == log + requests && ran.log[|log|..] == requests;
    var sent := Pairs(requests);
    var keys := KeysOfPairs(sent, tools.setting, tools.normalizedHash);
    forall i, j | 0 <= i < j < |sent| ensures sent[i] != sent[j] { assert keys[i] != keys[j]; }
    forall k ensures k in keys <==> k !in before && Wanted(k, jobs) {
      if k in keys { assert Unknown(k, jobs, Hits(before, jobs)); }
      if k !in before && Wanted(k, jobs) {
        var j :| j in jobs && j.key == k;
        assert j.key !in Hits(before, jobs);
      }
    }
  }

  /** A run changes no stored entry, adds only texts that passed for a job with that key, and is
      complete only when every segment to translate passed. */
  lemma RunIsSafe(plan: Plan, tools: Tools, answers: Answers, before: map<Key, Entry>, log: seq<Request>)
    requires PlanValid(plan)
    ensures var ran, jobs := Run(plan, tools, answers, before, log), Jobs(plan, tools.setting, tools.normalizedHash);
            && (forall k :: k in before ==> k in ran.memory && ran.memory[k] == before[k])
            && (forall k :: k in ran.memory && k !in before ==>
                  k == ran.memory[k].key && PassedFor(ran.memory[k], jobs, tools.check))
            && (ran.outcome.complete && !plan.notRequired ==>
                  forall j :: j in jobs ==> j.key in ran.memory && tools.check(j.planned.masked, ran.memory[j.key].text).ok)
  {
    if !plan.notRequired {
      var ran, jobs := Run(plan, tools, answers, before, log), Jobs(plan, tools.setting, tools.normalizedHash);
      var hits, heard := Hits(before, jobs), HeardBy(jobs, tools, answers, before, log);
      var added := NewEntries(jobs, heard.texts, tools.check, hits);
      RunFacts(plan, tools, answers, before, log);
      RememberedKeeps(before, added);
      RememberedFresh(before, added);
      JobsDistinct(plan, tools.setting, tools.normalizedHash);
      FinalsOfSlots(jobs, heard.texts, tools.check);
      forall k | k in ran.memory && k !in before ensures k == ran.memory[k].key && PassedFor(ran.memory[k], jobs, tools.check) {
        assert ran.memory[k] in added;
      }
      if ran.outcome.complete {
        forall j | j in jobs ensures j.key in ran.memory && tools.check(j.planned.masked, ran.memory[j.key].text).ok {
          StoredText(jobs, tools.check, before, heard.texts, SentBy(jobs, before), heard.truncated, j);
        }
      }
    }
  }

  lemma {:induction false} RememberedFresh(before: map<Key, Entry>, added: seq<Entry>)
    ensures forall k :: k in Remembered(before, added) && k !in before ==> Remembered(before, added)[k].key == k
  {
    if added != [] {
      RememberedFresh(before, added[..|added| - 1]);
    }
  }

  /** After a run the memory holds, for every job that passed, the very text that passed. */
  lemma StoredText(jobs: seq<Job>, check: Check, before: map<Key, Entry>, texts: map<Key, string>,
                   sent: seq<Key>, truncated: bool, job: Job)
    requires Answered(Hits(before, jobs), sent, texts, truncated)
    requires job in jobs && Passes(job, texts, check)
    ensures var after := Remembered(before, NewEntries(jobs, texts, check, Hits(before, jobs)));
      job.key in after && after[job.key].text == texts[job.key]
  {
    var hits := Hits(before, jobs);
    var added := NewEntries(jobs, texts, check, hits);
    RememberedKeeps(before, added);
    RememberedFresh(before, added);
    if job.key in before {
      assert Wanted(job.key, jobs) && job.key in hits;
    } else {
      assert Entry(job.key, texts[job.key]) in added;
      var stored := Remembered(before, added)[job.key];
      assert stored in added && stored.key == job.key;
    }
  }

  /** A rerun after a complete run makes no request, changes nothing in the memory and reports the same
      fields, whatever the provider would have said and whatever else was remembered in between. */
  lemma RerunIsFree(plan: Plan, tools: Tools, answers: Answers, before: map<Key, Entry>, log: seq<Request>,
                    answers': Answers, later: map<Key, Entry>, log': seq<Request>)
    requires PlanValid(plan) && Run(plan, tools, answers, before, log).outcome.complete
    requires var ran := Run(plan, tools, answers, before, log); forall k :: k in ran.memory ==> k in later && later[k] == ran.memory[k]
    ensures var rerun := Run(plan, tools, answers', later, log');
            && rerun.log == log' && rerun.memory == later
            && rerun.outcome.complete && rerun.outcome.providerSegments == 0
            && rerun.outcome.fields == Run(plan, tools, answers, before, log).outcome.fields
  {
    if !plan.notRequired {
      var jobs := Jobs(plan, tools.setting, tools.normalizedHash);
      var heard, heard' := HeardBy(jobs, tools, answers, before, log), HeardBy(jobs, tools, answers', later, log');
      CompletePasses(plan, tools, answers, before, log);
      RememberedTexts(plan, tools, answers, before, log, later);
      RunFacts(plan, tools, answers', later, log');
      AllRemembered(jobs, tools.check, later, heard.texts, heard'.texts, SentBy(jobs, later), heard'.truncated);
      NothingAsked(jobs, tools, later);
      SameTexts(jobs, heard.texts, heard'.texts, tools.check);
      SameReport(plan, jobs, tools, Hits(before, jobs), heard, |SentBy(jobs, before)|, Hits(later, jobs), heard', |SentBy(jobs, later)|);
    }
  }

  lemma CompletePasses(plan: Plan, tools: Tools, answers: Answers, before: map<Key, Entry>, log: seq<Request>)
    requires PlanValid(plan) && !plan.notRequired && Run(plan, tools, answers, before, log).outcome.complete
    ensures var jobs := Jobs(plan, tools.setting, tools.normalizedHash);
            forall j :: j in jobs ==> Passes(j, HeardBy(jobs, tools, answers, before, log).texts, tools.check)
  {
    var jobs := Jobs(plan, tools.setting, tools.normalizedHash);
    JobsDistinct(plan, tools.setting, tools.normalizedHash);
    FinalsOfSlots(jobs, HeardBy(jobs, tools, answers, before, log).texts, tools.check);
  }

  lemma SameReport(plan: Plan, jobs: seq<Job>, tools: Tools, hits: map<Key, Entry>, heard: Heard, sent: nat,
                   hits': map<Key, Entry>, heard': Heard, sent': nat)
    requires PlanValid(plan) && OutcomeOf(plan, jobs, tools, hits, heard, sent).complete && !heard'.truncated
    requires Finals(jobs, heard.texts, tools.check) == Finals(jobs, heard'.texts, tools.check)
    ensures var outcome, outcome' := OutcomeOf(plan, jobs, tools, hits, heard, sent), OutcomeOf(plan, jobs, tools, hits', heard', sent');
            outcome'.complete && outcome'.fields == outcome.fields && outcome'.providerSegments == sent'
  {
  }

  /** A memory that holds all a complete run left behind holds the text of every job. */
  lemma RememberedTexts(plan: Plan, tools: Tools, answers: Answers, before: map<Key, Entry>, log: seq<Request>, later: map<Key, Entry>)
    requires PlanValid(plan) && !plan.notRequired
    requires var jobs := Jobs(plan, tools.setting, tools.normalizedHash);
      forall j :: j in jobs ==> Passes(j, HeardBy(jobs, tools, answers, before, log).texts, tools.check)
    requires var ran := Run(plan, tools, answers, before, log); forall k :: k in ran.memory ==> k in later && later[k] == ran.memory[k]
    ensures var jobs := Jobs(plan, tools.setting, tools.normalizedHash);
            var texts := HeardBy(jobs, tools, answers, before, log).texts;
            forall j :: j in jobs ==> j.key in later && later[j.key].text == texts[j.key]
  {
    var jobs := Jobs(plan, tools.setting, tools.normalizedHash);
    var heard := HeardBy(jobs, tools, answers, before, log);
    RunFacts(plan, tools, answers, before, log);
    forall j | j in jobs ensures j.key in later && later[j.key].text == heard.texts[j.key] {
      StoredText(jobs, tools.check, before, heard.texts, SentBy(jobs, before), heard.truncated, j);
    }
  }

  lemma NothingAsked(jobs: seq<Job>, tools: Tools, later: map<Key, Entry>)
    requires forall j :: j in jobs ==> j.key in Hits(later, jobs)
    ensures RequestsOf(jobs, tools, later) == []
  {
    NoBatches(jobs, Hits(later, jobs));
  }

  lemma {:induction false} NoBatches(jobs: seq<Job>, hits: map<Key, Entry>)
    requires forall j :: j in jobs ==> j.key in hits
    ensures BatchesOf(jobs, hits) == Batches([], map[])
  {
    if jobs != [] { NoBatches(jobs[..|jobs| - 1], hits); }
  }

  /** With every job's text in the memory a run asks for nothing, learns nothing and adds nothing. */
  lemma AllRemembered(jobs: seq<Job>, check: Check, later: map<Key, Entry>, texts: map<Key, string>,
                      texts': map<Key, string>, sent': seq<Key>, truncated': bool)
    requires forall j :: j in jobs ==> j.key in texts && j.key in later && later[j.key].text == texts[j.key]
    requires forall k :: k in sent' ==> Unknown(k, jobs, Hits(later, jobs))
    requires Answered(Hits(later, jobs), sent', texts', truncated')
    ensures sent' == [] && !truncated'
    ensures forall j :: j in jobs ==> j.key in texts' && texts'[j.key] == texts[j.key]
    ensures NewEntries(jobs, texts', check, Hits(later, jobs)) == []
    ensures forall j :: j in jobs ==> j.key in Hits(later, jobs)
  {
    var hits := Hits(later, jobs);
    forall j | j in jobs ensures j.key in hits { assert Wanted(j.key, jobs); }
    NothingIn(sent');
    NothingIn(NewEntries(jobs, texts', check, hits));
  }

  lemma NothingIn<T>(items: seq<T>)
    ensures items == [] || exists x :: x in items
  {
    if items != [] {
      assert items[0] in items;
    }
  }

  lemma {:induction false} SameTexts(jobs: seq<Job>, texts: map<Key, string>, texts': map<Key, string>, check: Check)
    requires forall j :: j in jobs ==> j.key in texts && j.key in texts' && texts'[j.key] == texts[j.key]
    ensures Finals(jobs, texts, check) == Finals(jobs, texts', check)
  {
    if jobs != [] {
      assert jobs[|jobs| - 1] in jobs;
      SameTexts(jobs[..|jobs| - 1], texts, texts', check);
    }
  }

  // ---------------------------------------------------------------- what a complete run returns

  /** What a segment becomes: the checked and unmasked translation that the memory holds for it, or its
      own html where it is not to be translated. */
  function ShownAs(p: Planned, memory: map<Key, Entry>, tools: Tools): string {
    var key := KeyOf(p, tools.setting, tools.normalizedHash);
    if p.translate && key in memory then tools.check(p.masked, memory[key].text).html else p.html
  }

  function ShownIn(f: FieldPlan, memory: map<Key, Entry>, tools: Tools): seq<string> {
    seq(|f.segments|, k requires 0 <= k < |f.segments| => ShownAs(f.segments[k], memory, tools))
  }

  /** A field put together from those. */
  ghost predicate Shows(f: FieldPlan, text: string, memory: map<Key, Entry>, tools: Tools)
    requires FieldValid(f)
  {
    && (forall k :: 0 <= k < |f.segments| && f.segments[k].translate ==> KeyOf(f.segments[k], tools.setting, tools.normalizedHash) in memory)
    && var whole := Fill(f.document.parts, ShownIn(f, memory, tools));
       text == if f.name == "title" || f.name == "lead" then tools.unescape(whole) else whole
  }

  lemma {:induction false} FinalsAt(jobs: seq<Job>, texts: map<Key, string>, check: Check, j: Job)
    requires DistinctSlots(jobs) && j in jobs && Passes(j, texts, check)
    ensures j.Slot() in Finals(jobs, texts, check)
    ensures Finals(jobs, texts, check)[j.Slot()] == check(j.planned.masked, texts[j.key]).html
  {
    var front, last := jobs[..|jobs| - 1], jobs[|jobs| - 1];
    assert jobs == front + [last];
    if j in front {
      FinalsAt(front, texts, check, j);
      var i :| 0 <= i < |front| && front[i] == j;
      assert jobs[i].Slot() != jobs[|jobs| - 1].Slot();
    }
  }

  lemma {:induction false} AssembledAt(fields: seq<FieldPlan>, finals: map<(string, nat), string>, unescape: string -> string, i: nat)
    requires forall k :: 0 <= k < |fields| ==> FieldValid(fields[k])
    requires (forall a, b :: 0 <= a < b < |fields| ==> fields[a].name != fields[b].name) && i < |fields|
    ensures fields[i].name in Assembled(fields, finals, unescape)
    ensures Assembled(fields, finals, unescape)[fields[i].name] == FieldText(fields[i], finals, unescape)
  {
    if i < |fields| - 1 { AssembledAt(fields[..|fields| - 1], finals, unescape, i); }
  }

  lemma {:induction false} SegmentsOf(fields: seq<FieldPlan>, i: nat, k: nat)
    requires i < |fields| && k < |fields[i].segments|
    ensures fields[i].segments[k] in AllSegments(fields)
  {
    if i < |fields| - 1 { SegmentsOf(fields[..|fields| - 1], i, k); }
  }

  /** Which slots a run fills, and with what. */
  lemma FinalOf(plan: Plan, tools: Tools, texts: map<Key, string>, p: Planned)
    requires PlanValid(plan) && p in AllSegments(plan.fields)
    requires forall j :: j in Jobs(plan, tools.setting, tools.normalizedHash) ==> Passes(j, texts, tools.check)
    ensures var finals, key := Finals(Jobs(plan, tools.setting, tools.normalizedHash), texts, tools.check),
                               KeyOf(p, tools.setting, tools.normalizedHash);
            && (p.translate ==> key in texts && (p.field, p.index) in finals
                                && finals[(p.field, p.index)] == tools.check(p.masked, texts[key]).html)
            && (!p.translate ==> (p.field, p.index) !in finals)
  {
    var jobs := Jobs(plan, tools.setting, tools.normalizedHash);
    JobsDistinct(plan, tools.setting, tools.normalizedHash);
    FinalsOfSlots(jobs, texts, tools.check);
    if p.translate {
      JobOf(plan, tools, p);
      FinalsAt(jobs, texts, tools.check, Job(p, KeyOf(p, tools.setting, tools.normalizedHash)));
    }
    SlotIsTranslated(plan, tools, p);
  }

  lemma JobOf(plan: Plan, tools: Tools, p: Planned)
    requires PlanValid(plan) && p in AllSegments(plan.fields) && p.translate
    ensures Job(p, KeyOf(p, tools.setting, tools.normalizedHash)) in Jobs(plan, tools.setting, tools.normalizedHash)
  {
    FieldsDistinct(plan.fields);
    FilterDistinct(AllSegments(plan.fields));
    var planned := ToTranslate(AllSegments(plan.fields));
    var i :| 0 <= i < |planned| && planned[i] == p;
    assert Jobs(plan, tools.setting, tools.normalizedHash)[i] == Job(p, KeyOf(p, tools.setting, tools.normalizedHash));
  }

  lemma SlotIsTranslated(plan: Plan, tools: Tools, p: Planned)
    requires PlanValid(plan) && p in AllSegments(plan.fields)
    ensures forall j :: j in Jobs(plan, tools.setting, tools.normalizedHash) && j.Slot() == (p.field, p.index) ==> p.translate
  {
    FieldsDistinct(plan.fields);
    FilterDistinct(AllSegments(plan.fields));
    forall j | j in Jobs(plan, tools.setting, tools.normalizedHash) ensures j.Slot() == (p.field, p.index) ==> p.translate {
      assert j.planned in ToTranslate(AllSegments(plan.fields));
      if j.Slot() == (p.field, p.index) { SameSlot(AllSegments(plan.fields), p, j.planned); }
    }
  }

  lemma SameSlot(planned: seq<Planned>, p: Planned, q: Planned)
    requires DistinctPlanned(planned) && p in planned && q in planned && (p.field, p.index) == (q.field, q.index)
    ensures p == q
  {
    var i :| 0 <= i < |planned| && planned[i] == p;
    var j :| 0 <= j < |planned| && planned[j] == q;
  }

  /** What a complete run returns: every field of the plan with each of its segments in its slot, checked
      and unmasked from the memory where it was to be translated, and as it was where not. */
  lemma CompleteRunTranslates(plan: Plan, tools: Tools, answers: Answers, before: map<Key, Entry>, log: seq<Request>, i: nat)
    requires PlanValid(plan) && !plan.notRequired && i < |plan.fields|
    requires Run(plan, tools, answers, before, log).outcome.complete
    ensures var ran, f := Run(plan, tools, answers, before, log), plan.fields[i];
            f.name in ran.outcome.fields && Shows(f, ran.outcome.fields[f.name], ran.memory, tools)
  {
    var jobs, ran, f := Jobs(plan, tools.setting, tools.normalizedHash), Run(plan, tools, answers, before, log), plan.fields[i];
    var texts := HeardBy(jobs, tools, answers, before, log).texts;
    CompletePasses(plan, tools, answers, before, log);
    RememberedTexts(plan, tools, answers, before, log, ran.memory);
    AssembledAt(plan.fields, Finals(jobs, texts, tools.check), tools.unescape, i);
    forall k | 0 <= k < |f.segments|
      ensures Translations(f, Finals(jobs, texts, tools.check))[k] == ShownIn(f, ran.memory, tools)[k]
      ensures f.segments[k].translate ==> KeyOf(f.segments[k], tools.setting, tools.normalizedHash) in ran.memory
    {
      SegmentsOf(plan.fields, i, k);
      FinalOf(plan, tools, texts, f.segments[k]);
      KeyRemembered(plan, tools, texts, ran.memory, f.segments[k]);
    }
    assert Translations(f, Finals(jobs, texts, tools.check)) == ShownIn(f, ran.memory, tools);
  }

  lemma StoredPasses(jobs: seq<Job>, check: Check, before: map<Key, Entry>, texts: map<Key, string>, sent: seq<Key>,
                     truncated: bool, job: Job)
    requires Answered(Hits(before, jobs), sent, texts, truncated) && job in jobs
    requires var after := Remembered(before, NewEntries(jobs, texts, check, Hits(before, jobs)));
             job.key in after && check(job.planned.masked, after[job.key].text).ok
    ensures Passes(job, texts, check)
  {
    var added := NewEntries(jobs, texts, check, Hits(before, jobs));
    RememberedKeeps(before, added);
    RememberedFresh(before, added);
    if job.key in before {
      assert Wanted(job.key, jobs) && job.key in Hits(before, jobs);
    } else {
      assert Remembered(before, added)[job.key] in added;
    }
  }

  /** The memory holds a translation of the job that passes its check. */
  predicate Settled(job: Job, memory: map<Key, Entry>, check: Check) {
    job.key in memory && check(job.planned.masked, memory[job.key].text).ok
  }

  /** A run is complete exactly when its memory then holds a translation of every job that passes, and
      it flags neither an unsupported language nor an answer cut short. */
  lemma CompleteExactlyWhen(plan: Plan, tools: Tools, answers: Answers, before: map<Key, Entry>, log: seq<Request>)
    requires PlanValid(plan) && !plan.notRequired
    ensures var ran, jobs := Run(plan, tools, answers, before, log), Jobs(plan, tools.setting, tools.normalizedHash);
            ran.outcome.complete <==>
              && (forall j :: j in jobs ==> Settled(j, ran.memory, tools.check))
              && LanguageUnsupported !in ran.outcome.flags && ProviderTruncated !in ran.outcome.flags
  {
    var ran, jobs := Run(plan, tools, answers, before, log), Jobs(plan, tools.setting, tools.normalizedHash);
    var heard := HeardBy(jobs, tools, answers, before, log);
    RunFacts(plan, tools, answers, before, log);
    JobsDistinct(plan, tools.setting, tools.normalizedHash);
    FinalsOfSlots(jobs, heard.texts, tools.check);
    if ran.outcome.complete {
      RunIsSafe(plan, tools, answers, before, log);
    } else if forall j :: j in jobs ==> Settled(j, ran.memory, tools.check) {
      forall j | j in jobs ensures Passes(j, heard.texts, tools.check) {
        assert Settled(j, ran.memory, tools.check);
        StoredPasses(jobs, tools.check, before, heard.texts, SentBy(jobs, before), heard.truncated, j);
      }
    }
  }

  lemma KeyRemembered(plan: Plan, tools: Tools, texts: map<Key, string>, memory: map<Key, Entry>, p: Planned)
    requires PlanValid(plan) && p in AllSegments(plan.fields)
    requires forall j :: j in Jobs(plan, tools.setting, tools.normalizedHash) ==>
      j.key in texts && j.key in memory && memory[j.key].text == texts[j.key]
    ensures var key := KeyOf(p, tools.setting, tools.normalizedHash);
            p.translate ==> key in memory && key in texts && memory[key].text == texts[key]
  {
    if p.translate { JobOf(plan, tools, p); }
  }
}
