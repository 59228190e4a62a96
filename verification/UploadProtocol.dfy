/** Claimed uploads and orphan sweeping as one distributed protocol: producers, sweepers, the claim
    table, the object store and a clock, interleaved step by step. */
module UploadProtocol {
  import opened Common
  import opened UploadClaims

  /** What is fixed for a deployment. `owner` names each actor in the claim table, `address` is the
      digest a content-addressed key stands for, `grace` is the sweepers' grace period, and `timely`
      says that a delete reaches the store only while the sweeper's own lease is alive. */
  datatype Config = Config(owner: nat -> string, sweeper: nat -> bool, address: Key -> Digest,
                           lease: nat, maxAttempts: nat, grace: nat, timely: bool)

  datatype UploadOutcome = Uploaded | Deduplicated | Busy | Exhausted | Failed

  /** Where an actor is in its program. */
  datatype Actor =
    | Idle
    | Acquiring(key: Key, attempt: nat)
    | Putting(key: Key, attempt: nat, generation: nat)
    | Verifying(key: Key, attempt: nat, generation: nat)
    | Committing(key: Key, attempt: nat, generation: nat)
    | Checking(key: Key, attempt: nat)
    | Heading(key: Key, attempt: nat)
    | Referencing(key: Key, attempt: nat)
    | Finished(key: Key, attempt: nat, outcome: UploadOutcome)
    | Sweeping(sweep: Sweep)
    | Holding(key: Key, generation: nat, sweep: Sweep)
    | Awaiting(key: Key, generation: nat, landed: bool, sweep: Sweep)
    | Releasing(key: Key, generation: nat, ok: bool, sweep: Sweep)
    | Swept(sweep: Sweep, aborted: bool)

  /** A sweep's candidates: still to do, deleted, and left to their user. */
  datatype Sweep = Sweep(candidates: seq<Key>, todo: seq<Key>, deleted: seq<Key>, skipped: seq<Key>)

  /** A delete request on its way to the store. */
  datatype Delete = Delete(key: Key, actor: nat, generation: nat)

  datatype State = State(now: int, rows: map<Key, Claim>, store: map<Key, Digest>, references: set<Key>,
                         actors: map<nat, Actor>, deletes: set<Delete>)

  datatype Step =
    | Tick(seconds: nat)
    | PutLands(key: Key)
    | DeleteLands(delete: Delete)
    | ExpireRow(key: Key)
    | Crash(actor: nat)
    | Begin(actor: nat, key: Key)
    | Advance(actor: nat)
    | Fail(actor: nat)
    | CallbackStale(actor: nat)
    | List(actor: nat, candidates: seq<Key>)
    | DeleteReturns(actor: nat, ok: bool)

  function At(s: State, a: nat): Actor { if a in s.actors then s.actors[a] else Idle }

  function Move(s: State, a: nat, next: Actor): State { s.(actors := s.actors[a := next]) }

  function RefTo(cfg: Config, key: Key): Reference { Reference(cfg.address(key), 0, key) }

  /** One step of the whole system; a step that is not possible changes nothing. */
  function Do(cfg: Config, s: State, step: Step): State {
    match step
    case Tick(seconds) => s.(now := s.now + seconds)
    case PutLands(key) => s.(store := s.store[key := cfg.address(key)])
    case DeleteLands(delete) => if MayLand(cfg, s, delete) then Landed(s, delete) else s
    case ExpireRow(key) =>
      if key in s.rows && Stale(s.rows[key], s.now) then s.(rows := s.rows[key := s.rows[key].(status := Expired)]) else s
    case Crash(a) => Move(s, a, Idle)
    case Begin(a, key) =>
      if !cfg.sweeper(a) && (At(s, a).Idle? || At(s, a).Finished?) then Move(s, a, Acquiring(key, 1)) else s
    case Advance(a) => if cfg.sweeper(a) then SweepStep(cfg, s, a) else UploadStep(cfg, s, a)
    case Fail(a) =>
      if Uploading(At(s, a)) then Move(s, a, Finished(At(s, a).key, At(s, a).attempt, Failed)) else s
    case CallbackStale(a) => if At(s, a).Committing? then Move(s, a, Retry(cfg, At(s, a))) else s
    case List(a, candidates) =>
      if cfg.sweeper(a) && (At(s, a).Idle? || At(s, a).Swept?) && AllOrphans(s, candidates, cfg.grace)
      then Move(s, a, Sweeping(Sweep(candidates, candidates, [], []))) else s
    case DeleteReturns(a, ok) =>
      if cfg.sweeper(a) && At(s, a).Awaiting? && (ok ==> At(s, a).landed) then
        var at := At(s, a);
        Move(s, a, Releasing(at.key, at.generation, ok,
          if ok then at.sweep.(deleted := at.sweep.deleted + [at.key]) else at.sweep))
      else s
  }

  predicate Uploading(at: Actor) {
    at.Acquiring? || at.Putting? || at.Verifying? || at.Committing? || at.Checking? || at.Heading? || at.Referencing?
  }

  /** A stale commit starts the next attempt, as long as there is one. */
  function Retry(cfg: Config, at: Actor): Actor
    requires at.Committing?
  {
    if at.attempt < cfg.maxAttempts then Acquiring(at.key, at.attempt + 1)
    else Finished(at.key, at.attempt, Exhausted)
  }

  predicate AllOrphans(s: State, candidates: seq<Key>, grace: nat) {
    forall i :: 0 <= i < |candidates| ==>
      candidates[i] in s.rows && Orphan(candidates[i], s.rows[candidates[i]], s.now - grace, s.references)
  }

  predicate UnderLease(cfg: Config, s: State, delete: Delete) {
    && delete.key in s.rows
    && HeldBy(s.rows[delete.key], cfg.owner(delete.actor), delete.generation)
    && Alive(s.rows[delete.key], s.now)
  }

  /** A delete request may take effect at any time; a timely one only under its sweeper's live lease. */
  predicate MayLand(cfg: Config, s: State, delete: Delete) {
    delete in s.deletes && (cfg.timely ==> UnderLease(cfg, s, delete))
  }

  function Landed(s: State, delete: Delete): State {
    var gone := s.(store := s.store - {delete.key});
    var at := At(s, delete.actor);
    if at.Awaiting? && at.key == delete.key && at.generation == delete.generation
    then Move(gone, delete.actor, at.(landed := true)) else gone
  }

  /** The next action of a producer: acquire, PUT, HEAD, fenced commit with the caller's reference,
      retry on a stale claim, or the way round through an already committed object. */
  function UploadStep(cfg: Config, s: State, a: nat): State {
    match At(s, a)
    case Acquiring(key, attempt) =>
      (match Acquired(Row(s.rows, key), cfg.owner(a), cfg.lease, None, s.now)
       case Ok(claim) => Move(s, a, Putting(key, attempt, claim.generation)).(rows := s.rows[key := claim])
       case Err(StaleClaim) => Move(s, a, Checking(key, attempt))
       case Err(_) => Move(s, a, Finished(key, attempt, Failed)))
    case Putting(key, attempt, generation) =>
      Move(s, a, Verifying(key, attempt, generation)).(store := s.store[key := cfg.address(key)])
    case Verifying(key, attempt, generation) =>
      if key in s.store && s.store[key] == cfg.address(key) then Move(s, a, Committing(key, attempt, generation))
      else Move(s, a, Finished(key, attempt, Failed))
    case Committing(key, attempt, generation) =>
      (match CommittedAs(Row(s.rows, key), cfg.owner(a), generation, RefTo(cfg, key), None, s.now)
       case Ok(claim) =>
         Move(s, a, Finished(key, attempt, Uploaded)).(rows := s.rows[key := claim], references := s.references + {key})
       case Err(StaleClaim) => Move(s, a, Retry(cfg, At(s, a)))
       case Err(_) => Move(s, a, Finished(key, attempt, Failed)))
    case Checking(key, attempt) =>
      if key in s.rows && s.rows[key].status.Committed? then Move(s, a, Heading(key, attempt))
      else Move(s, a, Finished(key, attempt, Busy))
    case Heading(key, attempt) =>
      if key in s.store && s.store[key] == cfg.address(key) then Move(s, a, Referencing(key, attempt))
      else Move(s, a, Finished(key, attempt, Failed))
    case Referencing(key, attempt) =>
      Move(s, a, Finished(key, attempt, Deduplicated)).(references := s.references + {key})
    case _ => s
  }

  /** The next action of a sweeper: take the next candidate under its own claim or skip it, ask for
      the delete, and release the claim whatever came of it. */
  function SweepStep(cfg: Config, s: State, a: nat): State {
    match At(s, a)
    case Sweeping(sweep) =>
      if sweep.todo == [] then Move(s, a, Swept(sweep, false))
      else
        var key, rest := sweep.todo[0], sweep.(todo := sweep.todo[1..]);
        (match Acquired(Row(s.rows, key), cfg.owner(a), cfg.lease, None, s.now)
         case Ok(claim) => Move(s, a, Holding(key, claim.generation, rest)).(rows := s.rows[key := claim])
         case Err(_) => Move(s, a, Sweeping(rest.(skipped := rest.skipped + [key]))))
    case Holding(key, generation, sweep) =>
      Move(s, a, Awaiting(key, generation, false, sweep)).(deletes := s.deletes + {Delete(key, a, generation)})
    case Releasing(key, generation, ok, sweep) =>
      var next := if ok then Sweeping(sweep) else Swept(sweep, true);
      if key in s.rows then
        Move(s, a, next).(rows := s.rows[key := ReleasedAs(s.rows[key], cfg.owner(a), generation, s.now)])
      else Move(s, a, next)
    case _ => s
  }

  function Run(cfg: Config, s: State, steps: seq<Step>): State {
    if steps == [] then s else Do(cfg, Run(cfg, s, steps[..|steps| - 1]), steps[|steps| - 1])
  }

  const START := State(0, map[], map[], {}, map[], {})

  // ---------------------------------------------------------------- what a step achieves

  /** A sweeper's release gives its claim up: its generation no longer holds the row, no other row is
      touched, and a row it did hold is free for anybody's next generation. */
  lemma ReleaseGivesUp(cfg: Config, s: State, a: nat, owner: string, lease: nat)
    requires cfg.sweeper(a) && At(s, a).Releasing? && lease >= 1
    ensures var at, next := At(s, a), Do(cfg, s, Advance(a));
            && next.rows.Keys == s.rows.Keys && (forall k :: k in s.rows && k != at.key ==> next.rows[k] == s.rows[k])
            && next.store == s.store && next.references == s.references
            && (at.key in s.rows ==>
                  var before, after := s.rows[at.key], next.rows[at.key];
                  if before.status.Leased? && before.owner == cfg.owner(a) && before.generation == at.generation then
                    && after == before.(status := Released, releasedAt := Some(s.now))
                    && Acquired(Some(after), owner, lease, None, next.now).Ok?
                    && Acquired(Some(after), owner, lease, None, next.now).value.generation == at.generation + 1
                  else after == before)
  {
  }

  // ---------------------------------------------------------------- what no hypothesis is needed for

  /** Each operation moves every row by an operation of the claim table, and drops none. */
  ghost predicate RowsStep(s: State, next: State) {
    && (forall k :: k in s.rows ==> k in next.rows && RowStep(s.rows[k], next.rows[k], s.now))
    && (forall k :: k in next.rows && k !in s.rows ==> next.rows[k].generation == 1 && next.rows[k].status.Leased?)
  }

  lemma EveryStepIsARowStep(cfg: Config, s: State, step: Step)
    ensures RowsStep(s, Do(cfg, s, step))
  {
    match step
    case Advance(a) =>
      if cfg.sweeper(a) { SweepRowStep(cfg, s, a); } else { UploadRowStep(cfg, s, a); }
    case _ =>
  }

  lemma UploadRowStep(cfg: Config, s: State, a: nat)
    ensures RowsStep(s, UploadStep(cfg, s, a))
  {
  }

  lemma SweepRowStep(cfg: Config, s: State, a: nat)
    ensures RowsStep(s, SweepStep(cfg, s, a))
  {
  }

  /** Fencing over every run of the whole system, whatever crashes and interleavings it has: a
      key's generation never falls and rises with every change of owner, and the first committed
      claim of a key is its last, so no two digests are ever committed for one key. */
  lemma {:induction false} FencingOverRuns(cfg: Config, steps: seq<Step>, i: nat, j: nat, key: Key)
    requires i <= j <= |steps| && key in Run(cfg, START, steps[..i]).rows
    ensures key in Run(cfg, START, steps[..j]).rows
    ensures var early, late := Run(cfg, START, steps[..i]).rows[key], Run(cfg, START, steps[..j]).rows[key];
            && early.generation <= late.generation
            && (early.owner != late.owner ==> early.generation < late.generation)
            && (early.status.Committed? ==> late == early)
    decreases j
  {
    if i < j {
      FencingOverRuns(cfg, steps, i, j - 1, key);
      assert steps[..j][..j - 1] == steps[..j - 1];
      var before := Run(cfg, START, steps[..j - 1]);
      EveryStepIsARowStep(cfg, before, steps[j - 1]);
      FencingStep(before.rows[key], Run(cfg, START, steps[..j]).rows[key], before.now);
    }
  }

  predicate Held(s: State, key: Key, generation: nat) {
    key in s.rows && generation <= s.rows[key].generation
  }

  predicate IsCommitted(s: State, key: Key) {
    key in s.rows && s.rows[key].status.Committed?
  }

  /** What the claim table owes an actor at its place in its program. */
  predicate Grounded(s: State, at: Actor) {
    match at
    case Putting(key, _, generation) => Held(s, key, generation)
    case Verifying(key, _, generation) => Held(s, key, generation)
    case Committing(key, _, generation) => Held(s, key, generation)
    case Heading(key, _) => IsCommitted(s, key)
    case Referencing(key, _) => IsCommitted(s, key)
    case Finished(key, _, outcome) => outcome.Uploaded? || outcome.Deduplicated? ==> key in s.references
    case _ => true
  }

  /** Producers stay in the producer's program and within their attempts, sweepers in theirs. */
  predicate InProgram(cfg: Config, a: nat, at: Actor) {
    if at.Idle? then true
    else if cfg.sweeper(a) then Sweeper(at)
    else (Uploading(at) || at.Finished?) && 1 <= at.attempt <= cfg.maxAttempts
  }

  predicate Sweeper(at: Actor) {
    at.Sweeping? || at.Holding? || at.Awaiting? || at.Releasing? || at.Swept?
  }

  /** The candidate a sweeper is dealing with. */
  function InHand(at: Actor): seq<Key> {
    if at.Holding? || at.Awaiting? || (at.Releasing? && !at.ok) then [at.key] else []
  }

  /** Every candidate is deleted, skipped, in hand or still to do, exactly once; after an error the
      candidate in hand is dropped with the rest. */
  predicate Accounted(at: Actor) {
    if at.Swept? && at.aborted then Tally(at) <= multiset(at.sweep.candidates)
    else if Sweeper(at) then Tally(at) == multiset(at.sweep.candidates) && (at.Swept? ==> at.sweep.todo == [])
    else true
  }

  function Tally(at: Actor): multiset<Key>
    requires Sweeper(at)
  {
    multiset(at.sweep.deleted) + multiset(at.sweep.skipped) + multiset(InHand(at)) + multiset(at.sweep.todo)
  }

  predicate ActorOk(cfg: Config, s: State, a: nat) {
    Grounded(s, At(s, a)) && InProgram(cfg, a, At(s, a))
  }

  predicate ReferencesOk(s: State) { forall k :: k in s.references ==> IsCommitted(s, k) }

  predicate RowsOk(cfg: Config, s: State) {
    forall k :: k in s.rows && s.rows[k].status.Committed? ==> s.rows[k].reference == Some(RefTo(cfg, k))
  }

  predicate StoreOk(cfg: Config, s: State) { forall k :: k in s.store ==> s.store[k] == cfg.address(k) }

  predicate DeletesOk(cfg: Config, s: State) { forall d :: d in s.deletes ==> cfg.sweeper(d.actor) }

  predicate ActorsOk(cfg: Config, s: State) { forall a :: a in s.actors ==> ActorOk(cfg, s, a) }

  /** References stand on committed claims, committed claims on their key's own digest, and the store
      holds nothing but what the keys address. */
  predicate Ledger(cfg: Config, s: State) {
    ReferencesOk(s) && RowsOk(cfg, s) && StoreOk(cfg, s) && DeletesOk(cfg, s) && ActorsOk(cfg, s)
  }

  /** Rows that only step forward, references that only grow: what an actor relied on stays. */
  lemma GroundedStays(s: State, next: State, at: Actor)
    requires RowsStep(s, next) && s.references <= next.references && Grounded(s, at)
    ensures Grounded(next, at)
  {
    if (at.Putting? || at.Verifying? || at.Committing? || at.Heading? || at.Referencing?) && at.key in s.rows {
      FencingStep(s.rows[at.key], next.rows[at.key], s.now);
    }
  }

  lemma ReferencesStay(s: State, next: State, key: Key)
    requires RowsStep(s, next) && IsCommitted(s, key)
    ensures IsCommitted(next, key) && next.rows[key] == s.rows[key]
  {
    FencingStep(s.rows[key], next.rows[key], s.now);
  }

  /** Who else moves, an actor that did not move keeps what it stands on. */
  lemma OthersStay(cfg: Config, s: State, next: State, a: nat)
    requires ActorOk(cfg, s, a) && At(next, a) == At(s, a)
    requires RowsStep(s, next) && s.references <= next.references
    ensures ActorOk(cfg, next, a)
  {
    GroundedStays(s, next, At(s, a));
  }

  lemma ReferencesGrow(cfg: Config, s: State, step: Step)
    ensures s.references <= Do(cfg, s, step).references
  {
  }

  /** The actor of a step, if it has one. */
  function Mover(step: Step): Option<nat> {
    match step
    case Crash(a) => Some(a)
    case Begin(a, _) => Some(a)
    case Advance(a) => Some(a)
    case Fail(a) => Some(a)
    case CallbackStale(a) => Some(a)
    case List(a, _) => Some(a)
    case DeleteReturns(a, _) => Some(a)
    case DeleteLands(delete) => Some(delete.actor)
    case _ => None
  }

  lemma OnlyTheMoverMoves(cfg: Config, s: State, step: Step, a: nat)
    requires Mover(step) != Some(a)
    ensures At(Do(cfg, s, step), a) == At(s, a)
  {
  }

  lemma MoverStays(cfg: Config, s: State, step: Step)
    requires ActorsOk(cfg, s) && cfg.maxAttempts >= 1 && Mover(step).Some?
    ensures ActorOk(cfg, Do(cfg, s, step), Mover(step).value)
  {
    var a := Mover(step).value;
    assert ActorOk(cfg, s, a);
    match step
    case Advance(_) =>
      if cfg.sweeper(a) { SweeperStays(cfg, s, a); } else { ProducerStays(cfg, s, a); }
    case _ =>
  }

  lemma ProducerStays(cfg: Config, s: State, a: nat)
    requires ActorOk(cfg, s, a) && !cfg.sweeper(a)
    ensures ActorOk(cfg, UploadStep(cfg, s, a), a)
  {
  }

  lemma SweeperStays(cfg: Config, s: State, a: nat)
    requires ActorOk(cfg, s, a) && cfg.sweeper(a)
    ensures ActorOk(cfg, SweepStep(cfg, s, a), a)
  {
  }

  lemma ActorsStep(cfg: Config, s: State, step: Step)
    requires Ledger(cfg, s) && cfg.maxAttempts >= 1
    ensures ActorsOk(cfg, Do(cfg, s, step))
  {
    forall a ensures ActorOk(cfg, Do(cfg, s, step), a) { ActorStep(cfg, s, step, a); }
  }

  lemma ActorStep(cfg: Config, s: State, step: Step, a: nat)
    requires ActorsOk(cfg, s) && cfg.maxAttempts >= 1
    ensures ActorOk(cfg, Do(cfg, s, step), a)
  {
    assert ActorOk(cfg, s, a);
    if Mover(step) == Some(a) {
      MoverStays(cfg, s, step);
    } else {
      EveryStepIsARowStep(cfg, s, step);
      ReferencesGrow(cfg, s, step);
      OnlyTheMoverMoves(cfg, s, step, a);
      OthersStay(cfg, s, Do(cfg, s, step), a);
    }
  }

  lemma ReferencesStep(cfg: Config, s: State, step: Step)
    requires Ledger(cfg, s)
    ensures ReferencesOk(Do(cfg, s, step))
  {
    var next := Do(cfg, s, step);
    EveryStepIsARowStep(cfg, s, step);
    forall k | k in next.references ensures IsCommitted(next, k) {
      if k in s.references { ReferencesStay(s, next, k); } else { NewReference(cfg, s, step, k); }
    }
  }

  /** A reference is written only in a step after which its claim is committed. */
  lemma NewReference(cfg: Config, s: State, step: Step, key: Key)
    requires ActorsOk(cfg, s) && key !in s.references && key in Do(cfg, s, step).references
    ensures IsCommitted(Do(cfg, s, step), key)
  {
    var a := Mover(step).value;
    assert ActorOk(cfg, s, a);
  }

  lemma RowsStayOk(cfg: Config, s: State, step: Step)
    requires RowsOk(cfg, s)
    ensures RowsOk(cfg, Do(cfg, s, step))
  {
    match step
    case Advance(a) =>
      if cfg.sweeper(a) { SweepRowsOk(cfg, s, a); } else { UploadRowsOk(cfg, s, a); }
    case _ =>
  }

  lemma UploadRowsOk(cfg: Config, s: State, a: nat)
    requires RowsOk(cfg, s)
    ensures RowsOk(cfg, UploadStep(cfg, s, a))
  {
    match At(s, a)
    case Acquiring(_, _) =>
    case Committing(_, _, _) =>
    case _ => assert UploadStep(cfg, s, a).rows == s.rows;
  }

  lemma SweepRowsOk(cfg: Config, s: State, a: nat)
    requires RowsOk(cfg, s)
    ensures RowsOk(cfg, SweepStep(cfg, s, a))
  {
    match At(s, a)
    case Sweeping(_) =>
    case Releasing(_, _, _, _) =>
    case _ => assert SweepStep(cfg, s, a).rows == s.rows;
  }

  lemma StoreStep(cfg: Config, s: State, step: Step)
    requires StoreOk(cfg, s) && DeletesOk(cfg, s)
    ensures StoreOk(cfg, Do(cfg, s, step)) && DeletesOk(cfg, Do(cfg, s, step))
  {
  }

  lemma {:induction false} LedgerHolds(cfg: Config, steps: seq<Step>)
    requires cfg.maxAttempts >= 1
    ensures Ledger(cfg, Run(cfg, START, steps))
  {
    if steps != [] {
      var s, step := Run(cfg, START, steps[..|steps| - 1]), steps[|steps| - 1];
      LedgerHolds(cfg, steps[..|steps| - 1]);
      ActorsStep(cfg, s, step);
      ReferencesStep(cfg, s, step);
      RowsStayOk(cfg, s, step);
      StoreStep(cfg, s, step);
    }
  }

  // ---------------------------------------------------------------- a sweep's books

  /** Where a sweeper can go from where it is. */
  predicate Turn(at: Actor, next: Actor) {
    || next == at
    || (at.Sweeping? && at.sweep.todo == [] && next == Swept(at.sweep, false))
    || (at.Sweeping? && at.sweep.todo != [] && next.Holding? && next.key == at.sweep.todo[0] && next.sweep == Rest(at.sweep))
    || (at.Sweeping? && at.sweep.todo != [] && next == Sweeping(Skip(at.sweep)))
    || (at.Holding? && next == Awaiting(at.key, at.generation, false, at.sweep))
    || (at.Awaiting? && next == at.(landed := true))
    || (at.Awaiting? && next == Releasing(at.key, at.generation, false, at.sweep))
    || (at.Awaiting? && next == Releasing(at.key, at.generation, true, at.sweep.(deleted := at.sweep.deleted + [at.key])))
    || (at.Releasing? && next == if at.ok then Sweeping(at.sweep) else Swept(at.sweep, true))
    || (next.Sweeping? && next.sweep == Sweep(next.sweep.todo, next.sweep.todo, [], []))
    || !Sweeper(next)
  }

  function Rest(sweep: Sweep): Sweep
    requires sweep.todo != []
  {
    sweep.(todo := sweep.todo[1..])
  }

  function Skip(sweep: Sweep): Sweep
    requires sweep.todo != []
  {
    sweep.(todo := sweep.todo[1..], skipped := sweep.skipped + [sweep.todo[0]])
  }

  lemma TakeTally(sweep: Sweep, generation: nat)
    requires sweep.todo != []
    ensures Tally(Holding(sweep.todo[0], generation, Rest(sweep))) == Tally(Sweeping(sweep))
    ensures Tally(Sweeping(Skip(sweep))) == Tally(Sweeping(sweep))
  {
    assert sweep.todo == [sweep.todo[0]] + sweep.todo[1..];
  }

  lemma DeletedTally(sweep: Sweep, key: Key, generation: nat, landed: bool)
    ensures Tally(Releasing(key, generation, true, sweep.(deleted := sweep.deleted + [key])))
         == Tally(Awaiting(key, generation, landed, sweep))
  {
  }

  lemma DroppedTally(sweep: Sweep, key: Key, generation: nat)
    ensures Tally(Swept(sweep, true)) <= Tally(Releasing(key, generation, false, sweep))
  {
  }

  lemma TurnAccounted(at: Actor, next: Actor)
    requires Accounted(at) && Turn(at, next) && Sweeper(at) && Sweeper(next)
    ensures Accounted(next)
  {
    if at.Sweeping? && at.sweep.todo != [] {
      TakeTally(at.sweep, if next.Holding? then next.generation else 0);
    } else if at.Awaiting? && next.Releasing? && next.ok {
      DeletedTally(at.sweep, at.key, at.generation, at.landed);
    } else if at.Releasing? && !at.ok {
      DroppedTally(at.sweep, at.key, at.generation);
    }
  }

  lemma SweepStepTurns(cfg: Config, s: State, a: nat)
    ensures Turn(At(s, a), At(SweepStep(cfg, s, a), a))
  {
  }

  lemma UploadStepTurns(cfg: Config, s: State, a: nat)
    ensures Turn(At(s, a), At(UploadStep(cfg, s, a), a))
  {
  }

  lemma StepTurns(cfg: Config, s: State, step: Step, a: nat)
    ensures Turn(At(s, a), At(Do(cfg, s, step), a))
  {
    if step == Advance(a) {
      if cfg.sweeper(a) { SweepStepTurns(cfg, s, a); } else { UploadStepTurns(cfg, s, a); }
    } else if Mover(step) != Some(a) {
      OnlyTheMoverMoves(cfg, s, step, a);
    }
  }

  /** In every run each sweep accounts for every candidate exactly once: deleted, skipped, in hand or
      to do; and a sweep that came to its end left none out. */
  lemma {:induction false} SweepsAccountForAll(cfg: Config, steps: seq<Step>, a: nat)
    ensures Accounted(At(Run(cfg, START, steps), a))
  {
    if steps != [] {
      SweepsAccountForAll(cfg, steps[..|steps| - 1], a);
      var before := Run(cfg, START, steps[..|steps| - 1]);
      StepTurns(cfg, before, steps[|steps| - 1], a);
      if Sweeper(At(before, a)) && Sweeper(At(Run(cfg, START, steps), a)) {
        TurnAccounted(At(before, a), At(Run(cfg, START, steps), a));
      }
    }
  }

  // ---------------------------------------------------------------- no committed object is missing

  /** No sweeper shares its name in the claim table with a producer. */
  ghost predicate RolesApart(cfg: Config) {
    forall a, b :: cfg.sweeper(a) && !cfg.sweeper(b) ==> cfg.owner(a) != cfg.owner(b)
  }

  /** Every committed key has the object it addresses, and every reference points at such a key. */
  ghost predicate Safe(cfg: Config, s: State) {
    && (forall k :: k in s.rows && s.rows[k].status.Committed? ==> k in s.store && s.store[k] == cfg.address(k))
    && (forall k :: k in s.references ==> IsCommitted(s, k))
  }

  /** A producer about to commit under a claim that is still its own has its object in place. */
  predicate Ready(cfg: Config, s: State, a: nat) {
    var at := At(s, a);
    at.Committing? && at.key in s.rows && HeldBy(s.rows[at.key], cfg.owner(a), at.generation) ==> at.key in s.store
  }

  ghost predicate Objects(cfg: Config, s: State) {
    && (forall k :: IsCommitted(s, k) ==> k in s.store)
    && (forall a :: a in s.actors && !cfg.sweeper(a) ==> Ready(cfg, s, a))
  }

  /** The object went while a sweeper, and no producer, held its key. */
  ghost predicate SweptAway(cfg: Config, s: State, next: State, key: Key) {
    && key in s.rows && next.rows == s.rows && s.rows[key].status.Leased?
    && forall a :: !cfg.sweeper(a) ==> s.rows[key].owner != cfg.owner(a)
  }

  /** Only a delete takes an object away, and a timely one finds the key under a sweeper's claim. */
  lemma StoreKeeps(cfg: Config, s: State, step: Step, key: Key)
    requires Ledger(cfg, s) && RolesApart(cfg) && cfg.timely
    requires key in s.store && key !in Do(cfg, s, step).store
    ensures SweptAway(cfg, s, Do(cfg, s, step), key)
  {
    assert step.DeleteLands? && step.delete.key == key;
  }

  lemma CommittedStaysStored(cfg: Config, s: State, step: Step, key: Key)
    requires Ledger(cfg, s) && Objects(cfg, s) && RolesApart(cfg) && cfg.timely
    requires IsCommitted(Do(cfg, s, step), key)
    ensures key in Do(cfg, s, step).store
  {
    if IsCommitted(s, key) {
      if key !in Do(cfg, s, step).store { StoreKeeps(cfg, s, step, key); }
    } else {
      NewlyCommitted(cfg, s, step, key);
    }
  }

  /** The only step that commits a key is its producer's fenced commit. */
  lemma NewlyCommitted(cfg: Config, s: State, step: Step, key: Key)
    requires ActorsOk(cfg, s) && !IsCommitted(s, key) && IsCommitted(Do(cfg, s, step), key)
    ensures step.Advance? && step.actor in s.actors && !cfg.sweeper(step.actor)
    ensures var at := At(s, step.actor);
            && at.Committing? && at.key == key && key in s.rows
            && HeldBy(s.rows[key], cfg.owner(step.actor), at.generation) && Do(cfg, s, step).store == s.store
  {
  }

  lemma ReadyStays(cfg: Config, s: State, step: Step, a: nat)
    requires Ledger(cfg, s) && Objects(cfg, s) && RolesApart(cfg) && cfg.timely && !cfg.sweeper(a)
    ensures Ready(cfg, Do(cfg, s, step), a)
  {
    assert ActorOk(cfg, s, a) && Ready(cfg, s, a);
    if Mover(step) == Some(a) {
      OwnMoveIsReady(cfg, s, step);
    } else {
      EveryStepIsARowStep(cfg, s, step);
      OnlyTheMoverMoves(cfg, s, step, a);
      var next := Do(cfg, s, step);
      forall key | key in s.store && key !in next.store ensures SweptAway(cfg, s, next, key) { StoreKeeps(cfg, s, step, key); }
      ReadyKept(cfg, s, next, a);
    }
  }

  /** A producer gets to its commit only by finding its object in the store. */
  lemma OwnMoveIsReady(cfg: Config, s: State, step: Step)
    requires ActorsOk(cfg, s) && Mover(step).Some? && !cfg.sweeper(Mover(step).value)
    requires Ready(cfg, s, Mover(step).value)
    requires step.DeleteLands? ==> !cfg.sweeper(step.delete.actor) && !(step.delete in s.deletes)
    ensures Ready(cfg, Do(cfg, s, step), Mover(step).value)
  {
  }

  lemma ReadyKept(cfg: Config, s: State, next: State, a: nat)
    requires RowsStep(s, next) && At(next, a) == At(s, a) && Grounded(s, At(s, a)) && Ready(cfg, s, a) && !cfg.sweeper(a)
    requires forall key :: key in s.store && key !in next.store ==> SweptAway(cfg, s, next, key)
    ensures Ready(cfg, next, a)
  {
    var at := At(s, a);
    if at.Committing? && HeldBy(next.rows[at.key], cfg.owner(a), at.generation) {
      StillHeld(s, next, at.key, cfg.owner(a), at.generation);
    }
  }

  /** A claim that an earlier generation holds now, it held before. */
  lemma StillHeld(s: State, next: State, key: Key, owner: string, generation: nat)
    requires RowsStep(s, next) && Held(s, key, generation) && HeldBy(next.rows[key], owner, generation)
    ensures HeldBy(s.rows[key], owner, generation)
  {
    FencingStep(s.rows[key], next.rows[key], s.now);
  }

  lemma {:induction false} ObjectsHold(cfg: Config, steps: seq<Step>)
    requires cfg.maxAttempts >= 1 && RolesApart(cfg) && cfg.timely
    ensures Ledger(cfg, Run(cfg, START, steps)) && Objects(cfg, Run(cfg, START, steps))
  {
    LedgerHolds(cfg, steps);
    if steps != [] {
      var s, step := Run(cfg, START, steps[..|steps| - 1]), steps[|steps| - 1];
      ObjectsHold(cfg, steps[..|steps| - 1]);
      var next := Do(cfg, s, step);
      forall k | IsCommitted(next, k) ensures k in next.store { CommittedStaysStored(cfg, s, step, k); }
      forall a | a in next.actors && !cfg.sweeper(a) ensures Ready(cfg, next, a) { ReadyStays(cfg, s, step, a); }
    }
  }

  /** The main safety result: in every interleaving of uploads, sweeps, crashes, late PUTs, lease
      expiry and clock ticks, no committed object is missing, and an upload that reported success
      has its reference. */
  lemma NoCommittedObjectMissing(cfg: Config, steps: seq<Step>)
    requires cfg.maxAttempts >= 1 && RolesApart(cfg) && cfg.timely
    ensures Safe(cfg, Run(cfg, START, steps))
    ensures forall a :: At(Run(cfg, START, steps), a).Finished?
                        && (At(Run(cfg, START, steps), a).outcome.Uploaded? || At(Run(cfg, START, steps), a).outcome.Deduplicated?) ==>
                          At(Run(cfg, START, steps), a).key in Run(cfg, START, steps).references
                          && 1 <= At(Run(cfg, START, steps), a).attempt <= cfg.maxAttempts
  {
    ObjectsHold(cfg, steps);
  }

  // ---------------------------------------------------------------- the hypotheses are needed

  lemma RunSnoc(cfg: Config, s: State, steps: seq<Step>, step: Step)
    ensures Run(cfg, s, steps + [step]) == Do(cfg, Run(cfg, s, steps), step)
  {
    assert (steps + [step])[..|steps|] == steps;
  }

  lemma {:induction false} RunConcat(cfg: Config, s: State, first: seq<Step>, second: seq<Step>)
    ensures Run(cfg, s, first + second) == Run(cfg, Run(cfg, s, first), second)
  {
    if second == [] {
      assert first + second == first;
    } else {
      assert first + second == (first + second[..|second| - 1]) + [second[|second| - 1]];
      RunSnoc(cfg, s, first + second[..|second| - 1], second[|second| - 1]);
      RunConcat(cfg, s, first, second[..|second| - 1]);
    }
  }

  lemma RunThree(cfg: Config, s: State, x: Step, y: Step, z: Step)
    ensures Run(cfg, s, [x, y, z]) == Do(cfg, Do(cfg, Do(cfg, s, x), y), z)
  {
    RunSnoc(cfg, s, [], x);
    RunSnoc(cfg, s, [x], y);
    RunSnoc(cfg, s, [x, y], z);
    assert [] + [x] == [x] && [x] + [y] == [x, y] && [x, y] + [z] == [x, y, z];
  }

  /** A producer dies with its claim, and a sweeper takes it over and sends its delete. */
  function Abandoned(cfg: Config, a: nat, b: nat, key: Key): seq<Step> {
    [Begin(b, key), Advance(b), Crash(b)] + ([Tick(cfg.lease + cfg.grace), List(a, [key]), Advance(a)] + [Advance(a)])
  }

  /** A producer uploads the same key again, and the delete lands between its HEAD and its commit. */
  function Raced(a: nat, b: nat, key: Key): seq<Step> {
    [Begin(b, key), Advance(b), Advance(b)] + [Advance(b), DeleteLands(Delete(key, a, 2)), Advance(b)]
  }

  lemma ProducerDies(cfg: Config, b: nat, key: Key)
    requires cfg.lease >= 1 && !cfg.sweeper(b)
    ensures Run(cfg, START, [Begin(b, key), Advance(b), Crash(b)])
         == State(0, map[key := Claim(cfg.owner(b), Leased, 1, 0, cfg.lease, None, None, None, None)], map[], {}, map[b := Idle], {})
  {
    RunThree(cfg, START, Begin(b, key), Advance(b), Crash(b));
    var s := Do(cfg, START, Begin(b, key));
    assert s.actors == map[b := Acquiring(key, 1)];
    var t := Do(cfg, s, Advance(b));
    assert t.rows == map[key := Claim(cfg.owner(b), Leased, 1, 0, cfg.lease, None, None, None, None)];
    assert t.actors == map[b := Putting(key, 1, 1)];
    assert Do(cfg, t, Crash(b)).actors == map[b := Idle];
  }

  lemma SweeperTakesOver(cfg: Config, s: State, a: nat, key: Key)
    requires cfg.lease >= 1 && cfg.sweeper(a) && At(s, a).Idle? && key in s.rows && key !in s.references
    requires s.rows[key].status.Leased? && s.rows[key].leaseExpiresAt == s.now + cfg.lease
    ensures var t := Do(cfg, Do(cfg, Do(cfg, s, Tick(cfg.lease + cfg.grace)), List(a, [key])), Advance(a));
            && t.now == s.now + cfg.lease + cfg.grace && t.deletes == s.deletes
            && t.rows == s.rows[key := s.rows[key].(owner := cfg.owner(a), generation := s.rows[key].generation + 1,
                 acquiredAt := t.now, leaseExpiresAt := t.now + cfg.lease, releasedAt := None)]
            && t.actors == s.actors[a := Holding(key, s.rows[key].generation + 1, Sweep([key], [], [], []))]
  {
    var x := Do(cfg, s, Tick(cfg.lease + cfg.grace));
    var y := Do(cfg, x, List(a, [key]));
    assert AllOrphans(x, [key], cfg.grace);
    assert At(y, a) == Sweeping(Sweep([key], [key], [], []));
    assert [key][1..] == [];
    var t := Do(cfg, y, Advance(a));
    assert t == SweepStep(cfg, y, a);
    assert t.actors == y.actors[a := Holding(key, s.rows[key].generation + 1, Sweep([key], [], [], []))];
  }

  lemma AfterAbandoned(cfg: Config, a: nat, b: nat, key: Key)
    requires cfg.lease >= 1 && cfg.sweeper(a) && !cfg.sweeper(b)
    ensures Contested(cfg, Run(cfg, START, Abandoned(cfg, a, b, key)), a, b, key)
  {
    var up, over := [Begin(b, key), Advance(b), Crash(b)], [Tick(cfg.lease + cfg.grace), List(a, [key]), Advance(a)];
    RunConcat(cfg, START, up, over + [Advance(a)]);
    ProducerDies(cfg, b, key);
    Takeover(cfg, Run(cfg, START, up), a, b, key);
  }

  /** The sweeper holds the key at generation 2 with a fresh lease, and its delete is on the way. */
  predicate Contested(cfg: Config, s: State, a: nat, b: nat, key: Key) {
    && key in s.rows && HeldBy(s.rows[key], cfg.owner(a), 2) && s.rows[key].leaseExpiresAt == s.now + cfg.lease
    && At(s, b).Idle? && Delete(key, a, 2) in s.deletes
  }

  lemma Takeover(cfg: Config, s: State, a: nat, b: nat, key: Key)
    requires cfg.lease >= 1 && cfg.sweeper(a) && !cfg.sweeper(b) && At(s, a).Idle? && At(s, b).Idle?
    requires key in s.rows && key !in s.references && s.rows[key].generation == 1
    requires s.rows[key].status.Leased? && s.rows[key].leaseExpiresAt == s.now + cfg.lease
    ensures Contested(cfg, Run(cfg, s, [Tick(cfg.lease + cfg.grace), List(a, [key]), Advance(a)] + [Advance(a)]), a, b, key)
  {
    var over := [Tick(cfg.lease + cfg.grace), List(a, [key]), Advance(a)];
    SweeperTakesOver(cfg, s, a, key);
    RunThree(cfg, s, Tick(cfg.lease + cfg.grace), List(a, [key]), Advance(a));
    RunSnoc(cfg, s, over, Advance(a));
    SendsDelete(cfg, Run(cfg, s, over), a);
  }

  lemma SendsDelete(cfg: Config, s: State, a: nat)
    requires cfg.sweeper(a) && At(s, a).Holding?
    ensures var t := Do(cfg, s, Advance(a));
            && t.rows == s.rows && t.now == s.now && Delete(At(s, a).key, a, At(s, a).generation) in t.deletes
            && forall b :: b != a ==> At(t, b) == At(s, b)
  {
  }

  lemma ProducerPuts(cfg: Config, s: State, b: nat, key: Key)
    requires !cfg.sweeper(b) && At(s, b).Idle? && Acquired(Row(s.rows, key), cfg.owner(b), cfg.lease, None, s.now).Ok?
    ensures var t := Do(cfg, Do(cfg, Do(cfg, s, Begin(b, key)), Advance(b)), Advance(b));
            var claim := Acquired(Row(s.rows, key), cfg.owner(b), cfg.lease, None, s.now).value;
            && t.rows == s.rows[key := claim] && key in t.store && t.store[key] == cfg.address(key)
            && t.now == s.now && t.deletes == s.deletes && At(t, b) == Verifying(key, 1, claim.generation)
  {
    var x := Do(cfg, s, Begin(b, key));
    assert At(x, b) == Acquiring(key, 1);
    var y := Do(cfg, x, Advance(b));
    assert y == UploadStep(cfg, x, b);
    assert At(y, b).Putting?;
    assert Do(cfg, y, Advance(b)) == UploadStep(cfg, y, b);
  }

  lemma CommitsTooLate(cfg: Config, s: State, b: nat, delete: Delete)
    requires !cfg.sweeper(b) && cfg.sweeper(delete.actor) && delete in s.deletes && At(s, b).Verifying?
    requires delete.key == At(s, b).key && delete.key in s.store && s.store[delete.key] == cfg.address(delete.key)
    requires delete.key in s.rows && Alive(s.rows[delete.key], s.now)
    requires HeldBy(s.rows[delete.key], cfg.owner(b), At(s, b).generation)
    requires cfg.timely ==> HeldBy(s.rows[delete.key], cfg.owner(delete.actor), delete.generation)
    ensures !Safe(cfg, Do(cfg, Do(cfg, Do(cfg, s, Advance(b)), DeleteLands(delete)), Advance(b)))
  {
    var x := Do(cfg, s, Advance(b));
    assert x == UploadStep(cfg, s, b);
    assert At(x, b).Committing? && x.rows == s.rows && x.deletes == s.deletes;
    var y := Do(cfg, x, DeleteLands(delete));
    assert y == Landed(x, delete) && delete.key !in y.store;
    assert At(y, b) == At(x, b) && y.rows == s.rows;
    var z := Do(cfg, y, Advance(b));
    assert z == UploadStep(cfg, y, b);
    assert IsCommitted(z, delete.key) && delete.key !in z.store;
  }

  lemma AfterRaced(cfg: Config, s: State, a: nat, b: nat, key: Key)
    requires cfg.lease >= 1 && cfg.sweeper(a) && !cfg.sweeper(b)
    requires key in s.rows && HeldBy(s.rows[key], cfg.owner(a), 2) && At(s, b).Idle? && Delete(key, a, 2) in s.deletes
    requires if cfg.timely then cfg.owner(a) == cfg.owner(b) && Alive(s.rows[key], s.now)
             else !Alive(s.rows[key], s.now)
    ensures !Safe(cfg, Run(cfg, s, Raced(a, b, key)))
  {
    var first, second := [Begin(b, key), Advance(b), Advance(b)], [Advance(b), DeleteLands(Delete(key, a, 2)), Advance(b)];
    RunConcat(cfg, s, first, second);
    RunThree(cfg, s, Begin(b, key), Advance(b), Advance(b));
    ProducerPuts(cfg, s, b, key);
    RunThree(cfg, Run(cfg, s, first), Advance(b), DeleteLands(Delete(key, a, 2)), Advance(b));
    CommitsTooLate(cfg, Run(cfg, s, first), b, Delete(key, a, 2));
  }

  /** Safety over all runs needs no more and no less than its two hypotheses: sweepers named apart
      from producers, and deletes that land under a live lease. The grace period does not replace
      either of them. */
  lemma SafeExactlyWhen(cfg: Config, a: nat, b: nat)
    requires cfg.lease >= 1 && cfg.maxAttempts >= 1 && cfg.sweeper(a) && !cfg.sweeper(b)
    ensures (RolesApart(cfg) && cfg.timely) <==> forall steps :: Safe(cfg, Run(cfg, START, steps))
  {
    if RolesApart(cfg) && cfg.timely {
      forall steps ensures Safe(cfg, Run(cfg, START, steps)) { NoCommittedObjectMissing(cfg, steps); }
    } else {
      var x, y := a, b;
      if cfg.timely { x, y :| cfg.sweeper(x) && !cfg.sweeper(y) && cfg.owner(x) == cfg.owner(y); }
      UnsafeRun(cfg, x, y, "k");
    }
  }

  lemma UnsafeRun(cfg: Config, a: nat, b: nat, key: Key)
    requires cfg.lease >= 1 && cfg.sweeper(a) && !cfg.sweeper(b)
    requires cfg.timely ==> cfg.owner(a) == cfg.owner(b)
    ensures exists steps :: !Safe(cfg, Run(cfg, START, steps))
  {
    var start := if cfg.timely then Abandoned(cfg, a, b, key) else Abandoned(cfg, a, b, key) + [Tick(cfg.lease)];
    AfterAbandoned(cfg, a, b, key);
    RunSnoc(cfg, START, Abandoned(cfg, a, b, key), Tick(cfg.lease));
    AfterRaced(cfg, Run(cfg, START, start), a, b, key);
    RunConcat(cfg, START, start, Raced(a, b, key));
    assert !Safe(cfg, Run(cfg, START, start + Raced(a, b, key)));
  }

  // ---------------------------------------------------------------- what undisturbed actors achieve

  /** The key is not committed, and nobody else holds a live lease on it. */
  predicate FreeFor(s: State, key: Key, owner: string) {
    key in s.rows ==>
      && !s.rows[key].status.Committed?
      && (s.rows[key].status.Leased? && s.rows[key].leaseExpiresAt > s.now ==> s.rows[key].owner == owner)
  }

  lemma RunFour(cfg: Config, s: State, first: Step, second: Step, third: Step, fourth: Step)
    ensures Run(cfg, s, [first, second, third, fourth]) == Do(cfg, Do(cfg, Do(cfg, Do(cfg, s, first), second), third), fourth)
  {
    RunThree(cfg, s, first, second, third);
    RunSnoc(cfg, s, [first, second, third], fourth);
    assert [first, second, third] + [fourth] == [first, second, third, fourth];
  }

  function Upload(a: nat, key: Key): seq<Step> { [Begin(a, key), Advance(a), Advance(a), Advance(a)] + [Advance(a)] }

  /** A producer that nobody disturbs on a free key uploads at its first attempt: the object, the
      committed claim with its digest, and the reference are there. */
  lemma UndisturbedUpload(cfg: Config, s: State, a: nat, key: Key)
    requires !cfg.sweeper(a) && (At(s, a).Idle? || At(s, a).Finished?) && cfg.lease >= 1 && FreeFor(s, key, cfg.owner(a))
    ensures var t := Run(cfg, s, Upload(a, key));
            && At(t, a) == Finished(key, 1, Uploaded) && key in t.references
            && key in t.store && t.store[key] == cfg.address(key)
            && key in t.rows && t.rows[key].status.Committed? && t.rows[key].owner == cfg.owner(a)
            && t.rows[key].reference.Some? && t.rows[key].reference.value.sha256 == cfg.address(key)
            && forall k :: k != key ==> Row(t.rows, k) == Row(s.rows, k)
  {
    RunFour(cfg, s, Begin(a, key), Advance(a), Advance(a), Advance(a));
    RunSnoc(cfg, s, [Begin(a, key), Advance(a), Advance(a), Advance(a)], Advance(a));
    Acquires(cfg, s, a, key);
    var t := Do(cfg, Do(cfg, s, Begin(a, key)), Advance(a));
    PutsAndCommits(cfg, t, a, key, t.rows[key].generation);
  }

  lemma Acquires(cfg: Config, s: State, a: nat, key: Key)
    requires !cfg.sweeper(a) && (At(s, a).Idle? || At(s, a).Finished?) && cfg.lease >= 1 && FreeFor(s, key, cfg.owner(a))
    ensures var t := Do(cfg, Do(cfg, s, Begin(a, key)), Advance(a));
            && key in t.rows && At(t, a) == Putting(key, 1, t.rows[key].generation)
            && t.rows[key].status.Leased? && t.rows[key].owner == cfg.owner(a) && t.rows[key].leaseExpiresAt > t.now
            && forall k :: k != key ==> Row(t.rows, k) == Row(s.rows, k)
  {
    AcquireExactlyWhen(Row(s.rows, key), cfg.owner(a), cfg.lease, None, s.now);
  }

  lemma PutsAndCommits(cfg: Config, s: State, a: nat, key: Key, generation: nat)
    requires !cfg.sweeper(a) && At(s, a) == Putting(key, 1, generation) && key in s.rows
    requires s.rows[key].status.Leased? && s.rows[key].owner == cfg.owner(a) && s.rows[key].generation == generation
    requires s.rows[key].leaseExpiresAt > s.now
    ensures var t := Do(cfg, Do(cfg, Do(cfg, s, Advance(a)), Advance(a)), Advance(a));
            && At(t, a) == Finished(key, 1, Uploaded) && t.references == s.references + {key}
            && t.store == s.store[key := cfg.address(key)]
            && key in t.rows && t.rows[key].status.Committed? && t.rows[key].owner == cfg.owner(a)
            && t.rows[key].reference.Some? && t.rows[key].reference.value.sha256 == cfg.address(key)
            && forall k :: k != key ==> Row(t.rows, k) == Row(s.rows, k)
  {
    var t := Do(cfg, Do(cfg, s, Advance(a)), Advance(a));
    assert At(t, a) == Committing(key, 1, generation) && t.rows == s.rows;
  }

  /** On a committed key whose object is there it only adds its reference. */
  lemma UndisturbedDuplicate(cfg: Config, s: State, a: nat, key: Key)
    requires !cfg.sweeper(a) && (At(s, a).Idle? || At(s, a).Finished?) && cfg.lease >= 1 && IsCommitted(s, key)
    requires key in s.store && s.store[key] == cfg.address(key)
    ensures var t := Run(cfg, s, Upload(a, key));
            && At(t, a) == Finished(key, 1, Deduplicated) && t.references == s.references + {key}
            && t.rows == s.rows && t.store == s.store
  {
    RunFour(cfg, s, Begin(a, key), Advance(a), Advance(a), Advance(a));
    RunSnoc(cfg, s, [Begin(a, key), Advance(a), Advance(a), Advance(a)], Advance(a));
    var t := Do(cfg, Do(cfg, s, Begin(a, key)), Advance(a));
    assert At(t, a) == Checking(key, 1) && t.rows == s.rows && t.store == s.store && t.references == s.references;
    ChecksAndRefers(cfg, t, a, key);
  }

  lemma ChecksAndRefers(cfg: Config, s: State, a: nat, key: Key)
    requires !cfg.sweeper(a) && At(s, a) == Checking(key, 1) && IsCommitted(s, key)
    requires key in s.store && s.store[key] == cfg.address(key)
    ensures var t := Do(cfg, Do(cfg, Do(cfg, s, Advance(a)), Advance(a)), Advance(a));
            && At(t, a) == Finished(key, 1, Deduplicated) && t.references == s.references + {key}
            && t.rows == s.rows && t.store == s.store
  {
  }

  function SweepOf(a: nat, key: Key, generation: nat): seq<Step> {
    [List(a, [key]), Advance(a), Advance(a), DeleteLands(Delete(key, a, generation))]
    + [DeleteReturns(a, true), Advance(a), Advance(a)]
  }

  /** A sweeper that nobody disturbs deletes an orphan under the next generation, and leaves its key
      released, so that any producer may upload it again. */
  lemma UndisturbedSweep(cfg: Config, s: State, a: nat, key: Key)
    requires cfg.sweeper(a) && (At(s, a).Idle? || At(s, a).Swept?) && cfg.lease >= 1 && key in s.rows && AllOrphans(s, [key], cfg.grace)
    ensures var t := Run(cfg, s, SweepOf(a, key, s.rows[key].generation + 1));
            && At(t, a) == Swept(Sweep([key], [], [key], []), false) && t.store == s.store - {key}
            && key in t.rows && t.rows[key].status.Released? && t.rows[key].generation == s.rows[key].generation + 1
            && t.rows[key].releasedAt == Some(s.now) && (forall owner :: FreeFor(t, key, owner))
            && forall k :: k != key ==> Row(t.rows, k) == Row(s.rows, k)
  {
    assert [key][0] == key;
    var generation := s.rows[key].generation + 1;
    var first, second := [List(a, [key]), Advance(a), Advance(a), DeleteLands(Delete(key, a, generation))],
                         [DeleteReturns(a, true), Advance(a), Advance(a)];
    RunConcat(cfg, s, first, second);
    RunFour(cfg, s, List(a, [key]), Advance(a), Advance(a), DeleteLands(Delete(key, a, generation)));
    DeletesUnderLease(cfg, s, a, key);
    var t := Run(cfg, s, first);
    RunThree(cfg, t, DeleteReturns(a, true), Advance(a), Advance(a));
    ReleasesAndEnds(cfg, t, a, key, generation);
  }

  lemma DeletesUnderLease(cfg: Config, s: State, a: nat, key: Key)
    requires cfg.sweeper(a) && (At(s, a).Idle? || At(s, a).Swept?) && cfg.lease >= 1 && AllOrphans(s, [key], cfg.grace)
    requires key in s.rows && !s.rows[key].status.Committed? && s.rows[key].leaseExpiresAt <= s.now - cfg.grace
    ensures var generation := s.rows[key].generation + 1;
            var t := Do(cfg, Do(cfg, Do(cfg, Do(cfg, s, List(a, [key])), Advance(a)), Advance(a)), DeleteLands(Delete(key, a, generation)));
            && At(t, a) == Awaiting(key, generation, true, Sweep([key], [], [], [])) && t.store == s.store - {key} && t.now == s.now
            && key in t.rows && HeldBy(t.rows[key], cfg.owner(a), generation)
            && forall k :: k != key ==> Row(t.rows, k) == Row(s.rows, k)
  {
    var generation := s.rows[key].generation + 1;
    TakesCandidate(cfg, s, a, key);
    RequestsAndDeletes(cfg, Do(cfg, Do(cfg, s, List(a, [key])), Advance(a)), a, key, generation);
  }

  lemma TakesCandidate(cfg: Config, s: State, a: nat, key: Key)
    requires cfg.sweeper(a) && (At(s, a).Idle? || At(s, a).Swept?) && cfg.lease >= 1 && AllOrphans(s, [key], cfg.grace)
    requires key in s.rows && !s.rows[key].status.Committed? && s.rows[key].leaseExpiresAt <= s.now - cfg.grace
    ensures var generation, t := s.rows[key].generation + 1, Do(cfg, Do(cfg, s, List(a, [key])), Advance(a));
            && At(t, a) == Holding(key, generation, Sweep([key], [], [], [])) && t.store == s.store && t.now == s.now
            && key in t.rows && HeldBy(t.rows[key], cfg.owner(a), generation) && t.rows[key].leaseExpiresAt > t.now
            && forall k :: k != key ==> Row(t.rows, k) == Row(s.rows, k)
  {
    assert [key][1..] == [];
    AcquireExactlyWhen(Row(s.rows, key), cfg.owner(a), cfg.lease, None, s.now);
  }

  lemma RequestsAndDeletes(cfg: Config, s: State, a: nat, key: Key, generation: nat)
    requires cfg.sweeper(a) && At(s, a) == Holding(key, generation, Sweep([key], [], [], []))
    requires key in s.rows && HeldBy(s.rows[key], cfg.owner(a), generation) && s.rows[key].leaseExpiresAt > s.now
    ensures var t := Do(cfg, Do(cfg, s, Advance(a)), DeleteLands(Delete(key, a, generation)));
            && At(t, a) == Awaiting(key, generation, true, Sweep([key], [], [], [])) && t.store == s.store - {key} && t.now == s.now
            && t.rows == s.rows
  {
  }

  lemma ReleasesAndEnds(cfg: Config, s: State, a: nat, key: Key, generation: nat)
    requires cfg.sweeper(a) && At(s, a) == Awaiting(key, generation, true, Sweep([key], [], [], []))
    requires key in s.rows && HeldBy(s.rows[key], cfg.owner(a), generation)
    ensures var t := Do(cfg, Do(cfg, Do(cfg, s, DeleteReturns(a, true)), Advance(a)), Advance(a));
            && At(t, a) == Swept(Sweep([key], [], [key], []), false) && t.store == s.store && t.now == s.now
            && t.rows == s.rows[key := s.rows[key].(status := Released, releasedAt := Some(s.now))]
  {
    assert [] + [key] == [key];
  }
}
