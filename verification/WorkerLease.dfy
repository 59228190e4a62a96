/** Job leases under self-fencing: workers, their claims and heartbeats in flight, and the queue's
    lease rows as one real-time protocol. Two workers must never run the same job at once. */
module WorkerLease {
  import opened Common

  type Job = nat

  /** Seconds. `delay` bounds the time from the `now` a claim or heartbeat writes to its result being
      applied or given up; `watchdog` bounds the time between two fence checks. `keepsLater` says that a
      heartbeat never moves an expiry back; `reclaims` says that the queue may hand a job back to a
      worker that still tracks its previous task for it. */
  datatype Config = Config(lease: real, fence: real, watchdog: real, delay: real, keepsLater: bool, reclaims: bool)

  datatype Lease = Lease(owner: nat, expires: real)

  /** A claim or heartbeat on its way: when it started, its jobs, and what its transaction found. */
  datatype Call = Call(start: real, jobs: set<Job>, committed: bool, lost: set<Job>)

  datatype Task = Task(job: Job, serial: nat)

  /** `active` is the worker's own table of tasks, `running` what really runs, and `reported` the
      tasks whose result is already in the queue. */
  datatype Worker = Worker(lastOk: real, lastCheck: real, fenced: bool, active: map<Job, nat>, running: set<Task>,
                           reported: set<Task>, serial: nat, claim: Option<Call>, beat: Option<Call>)

  datatype State = State(now: real, rows: map<Job, Lease>, workers: map<nat, Worker>, gone: set<nat>)

  datatype Step =
    | Tick(seconds: real)
    | Recover(job: Job)
    | Boot(w: nat)
    | Crash(w: nat)
    | ClaimStart(w: nat)
    | ClaimCommit(w: nat, jobs: set<Job>)
    | ClaimApply(w: nat)
    | ClaimFail(w: nat)
    | BeatStart(w: nat)
    | BeatCommit(w: nat)
    | BeatApply(w: nat)
    | BeatFail(w: nat)
    | Watchdog(w: nat)
    | Report(w: nat, task: Task)
    | Finish(w: nat, task: Task)

  const START := State(0.0, map[], map[], {})

  // ---------------------------------------------------------------- one worker

  function Booted(now: real): Worker { Worker(now, now, false, map[], {}, {}, 0, None, None) }

  /** Drops jobs from the table and cancels what runs for them there. */
  function Abandon(wk: Worker, jobs: set<Job>): Worker {
    wk.(active := wk.active - jobs,
        running := set t | t in wk.running && !(t.job in jobs && t.job in wk.active && wk.active[t.job] == t.serial))
  }

  /** Fences the worker once its lease has gone unconfirmed for the whole window. */
  function FenceCheck(cfg: Config, wk: Worker, now: real): Worker {
    if wk.fenced || now - wk.lastOk < cfg.fence then wk
    else Abandon(wk, wk.active.Keys).(fenced := true)
  }

  /** Tasks of an applied claim start, unless the worker was fenced meanwhile. */
  function Started(wk: Worker, jobs: set<Job>): Worker {
    if wk.fenced then wk.(claim := None)
    else wk.(claim := None, serial := wk.serial + 1, active := wk.active + map j | j in jobs :: wk.serial,
             running := wk.running + set j | j in jobs :: Task(j, wk.serial))
  }

  /** A confirmed heartbeat resets the window, lifts the fence and abandons what was lost. */
  function Confirmed(wk: Worker, lost: set<Job>, now: real): Worker {
    Abandon(wk.(beat := None, lastOk := now, fenced := false), lost)
  }

  /** The end of a task drops its job from the table, whatever task stands there by now. */
  function Finished(wk: Worker, task: Task): Worker {
    wk.(running := wk.running - {task}, active := wk.active - {task.job})
  }

  // ---------------------------------------------------------------- the whole system

  predicate OwnedBy(s: State, w: nat, job: Job) { job in s.rows && s.rows[job].owner == w }

  /** Time passes only as far as every deadline allows. */
  predicate MayPass(cfg: Config, s: State, seconds: real) {
    seconds >= 0.0 && forall w :: w in s.workers ==> OnTime(cfg, s.workers[w], s.now + seconds)
  }

  predicate OnTime(cfg: Config, wk: Worker, now: real) {
    && now <= wk.lastCheck + cfg.watchdog
    && (wk.claim.Some? ==> now <= wk.claim.value.start + cfg.delay)
    && (wk.beat.Some? ==> now <= wk.beat.value.start + cfg.delay)
  }

  function Put(s: State, w: nat, wk: Worker): State { s.(workers := s.workers[w := wk]) }

  predicate MayClaim(cfg: Config, s: State, wk: Worker, jobs: set<Job>) {
    && wk.claim.Some? && !wk.claim.value.committed
    && (forall j :: j in jobs ==> j !in s.rows)
    && (cfg.reclaims || jobs !! wk.active.Keys)
  }

  /** The rows after a heartbeat that started at `start`: its jobs still owned get a new expiry. */
  function Beaten(cfg: Config, s: State, w: nat, beat: Call): map<Job, Lease> {
    map j | j in s.rows ::
      if j in beat.jobs && s.rows[j].owner == w then
        Lease(w, if cfg.keepsLater && s.rows[j].expires > beat.start + cfg.lease then s.rows[j].expires
                 else beat.start + cfg.lease)
      else s.rows[j]
  }

  /** The jobs of a heartbeat that are no longer its worker's. */
  function Lost(s: State, w: nat, beat: Call): set<Job> { set j | j in beat.jobs && !OwnedBy(s, w, j) }

  /** One step of the whole system; a step that is not possible changes nothing. */
  function Do(cfg: Config, s: State, step: Step): State {
    match step
    case Tick(seconds) => if MayPass(cfg, s, seconds) then s.(now := s.now + seconds) else s
    case Recover(job) => if job in s.rows && s.rows[job].expires <= s.now then s.(rows := s.rows - {job}) else s
    case Boot(w) => if w !in s.workers && w !in s.gone then Put(s, w, Booted(s.now)) else s
    case Crash(w) => s.(workers := s.workers - {w}, gone := s.gone + {w})
    case _ => if step.w in s.workers then WorkerStep(cfg, s, s.workers[step.w], step) else s
  }

  function WorkerStep(cfg: Config, s: State, wk: Worker, step: Step): State
    requires !step.Tick? && !step.Recover? && !step.Boot? && !step.Crash?
  {
    match step
    case ClaimStart(w) =>
      if wk.claim.None? && !wk.fenced then Put(s, w, wk.(claim := Some(Call(s.now, {}, false, {})))) else s
    case ClaimCommit(w, jobs) =>
      if MayClaim(cfg, s, wk, jobs) then
        Put(s, w, wk.(claim := Some(wk.claim.value.(jobs := jobs, committed := true))))
          .(rows := s.rows + map j | j in jobs :: Lease(w, wk.claim.value.start + cfg.lease))
      else s
    case ClaimApply(w) =>
      if wk.claim.Some? && wk.claim.value.committed then Put(s, w, Started(wk, wk.claim.value.jobs)) else s
    case ClaimFail(w) => Put(s, w, wk.(claim := None))
    case BeatStart(w) =>
      if wk.beat.None? then Put(s, w, wk.(beat := Some(Call(s.now, wk.active.Keys, false, {})))) else s
    case BeatCommit(w) =>
      if wk.beat.Some? && !wk.beat.value.committed then
        Put(s, w, wk.(beat := Some(wk.beat.value.(committed := true, lost := Lost(s, w, wk.beat.value))))).(rows := Beaten(cfg, s, w, wk.beat.value))
      else s
    case BeatApply(w) =>
      if wk.beat.Some? && wk.beat.value.committed then Put(s, w, Confirmed(wk, wk.beat.value.lost, s.now)) else s
    case BeatFail(w) => if wk.beat.Some? then Put(s, w, FenceCheck(cfg, wk.(beat := None), s.now)) else s
    case Watchdog(w) => Put(s, w, FenceCheck(cfg, wk.(lastCheck := s.now), s.now))
    case Report(w, task) =>
      if task in wk.running && task !in wk.reported then
        Put(s, w, wk.(reported := wk.reported + {task})).(rows := if OwnedBy(s, w, task.job) then s.rows - {task.job} else s.rows)
      else s
    case Finish(w, task) => if task in wk.running then Put(s, w, Finished(wk, task)) else s
  }

  function Run(cfg: Config, s: State, steps: seq<Step>): State {
    if steps == [] then s else Do(cfg, Run(cfg, s, steps[..|steps| - 1]), steps[|steps| - 1])
  }

  // ---------------------------------------------------------------- safety

  /** What runs and has not reported. */
  function Live(wk: Worker): set<Task> { wk.running - wk.reported }

  /** No job runs twice: not on two workers, and not twice on one. */
  predicate Exclusive(s: State) {
    forall v, w :: v in s.workers && w in s.workers ==>
      forall t, u :: t in Live(s.workers[v]) && u in Live(s.workers[w]) && t.job == u.job ==> v == w && t == u
  }

  /** What runs is leased to the worker that runs it, and the lease has not run out. */
  predicate LeaseHeld(s: State) {
    forall w, t :: w in s.workers && t in Live(s.workers[w]) ==> OwnedBy(s, w, t.job) && s.rows[t.job].expires > s.now
  }

  /** How long a heartbeat can be on its way without its worker being fenced meanwhile. */
  function Age(cfg: Config): real { if cfg.delay < cfg.fence + cfg.watchdog then cfg.delay else cfg.fence + cfg.watchdog }

  /** How far a heartbeat that commits late may set an expiry behind the claim's. */
  function Setback(cfg: Config): real { if cfg.keepsLater then 0.0 else Age(cfg) }

  /** How far the written expiries may lag behind the last confirmation: by a claim on its way, a
      heartbeat that missed it, and a setback. */
  function Slack(cfg: Config): real { cfg.delay + Age(cfg) + Setback(cfg) }

  predicate Plausible(cfg: Config) { cfg.lease > 0.0 && cfg.fence > 0.0 && cfg.watchdog > 0.0 && cfg.delay >= 0.0 }

  predicate Roomy(cfg: Config) { Slack(cfg) + cfg.fence + cfg.watchdog <= cfg.lease }

  // ---------------------------------------------------------------- the invariant of one worker

  /** Checks come in time, an unfenced worker was within its window at the last one, and a fenced
      worker runs nothing. */
  predicate Clocked(cfg: Config, wk: Worker, now: real) {
    && wk.lastOk <= now && wk.lastCheck <= now && OnTime(cfg, wk, now)
    && (!wk.fenced ==> wk.lastCheck - wk.lastOk < cfg.fence)
    && (wk.fenced ==> wk.active == map[])
    && (wk.claim.Some? ==> wk.claim.value.start <= now)
    && (wk.beat.Some? ==> wk.lastOk <= wk.beat.value.start <= now)
    && (wk.beat.Some? && wk.claim.Some? ==> wk.claim.value.start <= wk.beat.value.start + Age(cfg))
  }

  /** The table knows every running task, and a claim in flight brings only new jobs. */
  predicate Tracked(wk: Worker) {
    && (forall t :: t in wk.running ==> t.job in wk.active && wk.active[t.job] == t.serial)
    && (forall t :: t in wk.running + wk.reported ==> t.serial < wk.serial)
    && (wk.claim.Some? ==> wk.claim.value.jobs !! wk.active.Keys)
  }

  predicate LeasedUntil(s: State, w: nat, job: Job, least: real) {
    OwnedBy(s, w, job) && s.rows[job].expires >= least
  }

  /** Live tasks hold leases that lag the last confirmation by at most the slack, and the start of a
      heartbeat in flight by its age less. */
  predicate TasksLeased(cfg: Config, s: State, w: nat, wk: Worker) {
    forall t :: t in Live(wk) ==>
      && LeasedUntil(s, w, t.job, wk.lastOk + cfg.lease - Slack(cfg))
      && (wk.beat.Some? && Settled(wk.beat.value, t.job) ==>
            LeasedUntil(s, w, t.job, wk.beat.value.start + cfg.lease - (Slack(cfg) - Age(cfg))))
  }

  /** The heartbeat has nothing more to write for this job, and does not report it lost. */
  predicate Settled(beat: Call, job: Job) { job !in beat.jobs || (beat.committed && job !in beat.lost) }

  /** Jobs of a committed claim on its way back are leased. */
  predicate ClaimLeased(cfg: Config, s: State, w: nat, wk: Worker) {
    wk.claim.Some? && wk.claim.value.committed ==>
      forall j :: j in wk.claim.value.jobs ==>
        LeasedUntil(s, w, j, wk.claim.value.start + cfg.lease - Setback(cfg))
  }

  predicate WorkerOk(cfg: Config, s: State, w: nat, wk: Worker) {
    Clocked(cfg, wk, s.now) && Tracked(wk) && TasksLeased(cfg, s, w, wk) && ClaimLeased(cfg, s, w, wk)
  }

  predicate AllOk(cfg: Config, s: State) {
    forall w :: w in s.workers ==> WorkerOk(cfg, s, w, s.workers[w])
  }

  /** The heart of the matter: a lease that lags by the slack outlives the fence window and the
      watchdog's step. */
  lemma LiveLeaseLasts(cfg: Config, s: State, w: nat, wk: Worker, task: Task)
    requires Roomy(cfg) && WorkerOk(cfg, s, w, wk) && task in Live(wk)
    ensures OwnedBy(s, w, task.job) && s.rows[task.job].expires > s.now
  {
    assert task.job in wk.active;
  }

  lemma ClaimedLeaseLasts(cfg: Config, s: State, w: nat, wk: Worker, job: Job)
    requires Plausible(cfg) && Roomy(cfg) && WorkerOk(cfg, s, w, wk)
    requires wk.claim.Some? && wk.claim.value.committed && job in wk.claim.value.jobs
    ensures OwnedBy(s, w, job) && s.rows[job].expires > s.now
  {
  }

  /** A worker is unharmed by a step that keeps it, the clock, and the rows it owns. */
  lemma Unharmed(cfg: Config, s: State, next: State, w: nat, wk: Worker)
    requires WorkerOk(cfg, s, w, wk) && next.now == s.now
    requires forall t :: t in Live(wk) ==> OwnedBy(next, w, t.job) && next.rows[t.job] == s.rows[t.job]
    requires wk.claim.Some? && wk.claim.value.committed ==> forall j :: j in wk.claim.value.jobs ==>
      OwnedBy(next, w, j) && next.rows[j] == s.rows[j]
    ensures WorkerOk(cfg, next, w, wk)
  {
  }

  lemma RecoverKeeps(cfg: Config, s: State, job: Job)
    requires Plausible(cfg) && Roomy(cfg) && AllOk(cfg, s)
    ensures AllOk(cfg, Do(cfg, s, Recover(job)))
  {
    var next := Do(cfg, s, Recover(job));
    forall w | w in next.workers ensures WorkerOk(cfg, next, w, next.workers[w]) {
      var wk := s.workers[w];
      forall t | t in Live(wk) ensures OwnedBy(next, w, t.job) && next.rows[t.job] == s.rows[t.job] {
        LiveLeaseLasts(cfg, s, w, wk, t);
      }
      if wk.claim.Some? && wk.claim.value.committed {
        forall j | j in wk.claim.value.jobs ensures OwnedBy(next, w, j) && next.rows[j] == s.rows[j] {
          ClaimedLeaseLasts(cfg, s, w, wk, j);
        }
      }
      Unharmed(cfg, s, next, w, wk);
    }
  }

  /** Another worker's step keeps the rows this worker owns. */
  lemma OthersKeep(cfg: Config, s: State, step: Step, w: nat)
    requires AllOk(cfg, s) && w in s.workers
    requires !step.Tick? && !step.Recover? && !step.Boot? && !step.Crash? && step.w != w
    ensures var next := Do(cfg, s, step); w in next.workers && WorkerOk(cfg, next, w, next.workers[w])
  {
    var next := Do(cfg, s, step);
    OthersRowsKeep(cfg, s, step, w);
    Unharmed(cfg, s, next, w, s.workers[w]);
  }

  lemma OthersRowsKeep(cfg: Config, s: State, step: Step, w: nat)
    requires w in s.workers && !step.Tick? && !step.Recover? && !step.Boot? && !step.Crash? && step.w != w
    ensures var next := Do(cfg, s, step);
            && next.now == s.now && w in next.workers && next.workers[w] == s.workers[w]
            && forall j :: OwnedBy(s, w, j) ==> OwnedBy(next, w, j) && next.rows[j] == s.rows[j]
  {
  }

  // ---------------------------------------------------------------- a worker's own steps

  /** Abandoning jobs cancels exactly their running tasks, and takes exactly their entries. */
  lemma AbandonKeeps(cfg: Config, s: State, w: nat, wk: Worker, jobs: set<Job>)
    requires WorkerOk(cfg, s, w, wk)
    ensures WorkerOk(cfg, s, w, Abandon(wk, jobs))
    ensures forall t :: t in Abandon(wk, jobs).running <==> t in wk.running && t.job !in jobs
    ensures forall j :: j in Abandon(wk, jobs).active <==> j in wk.active && j !in jobs
    ensures forall j :: j in Abandon(wk, jobs).active ==> Abandon(wk, jobs).active[j] == wk.active[j]
  {
  }

  lemma FenceKeeps(cfg: Config, s: State, w: nat, wk: Worker)
    requires WorkerOk(cfg, s, w, wk)
    ensures WorkerOk(cfg, s, w, FenceCheck(cfg, wk, s.now))
  {
    AbandonKeeps(cfg, s, w, wk, wk.active.Keys);
    assert wk.active - wk.active.Keys == map[];
  }

  lemma WatchdogKeeps(cfg: Config, s: State, w: nat, wk: Worker)
    requires Plausible(cfg) && WorkerOk(cfg, s, w, wk)
    ensures WorkerOk(cfg, s, w, FenceCheck(cfg, wk.(lastCheck := s.now), s.now))
  {
    if wk.fenced || s.now - wk.lastOk < cfg.fence {
      assert WorkerOk(cfg, s, w, wk.(lastCheck := s.now));
    } else {
      AbandonKeeps(cfg, s, w, wk, wk.active.Keys);
      assert wk.active - wk.active.Keys == map[];
      assert Abandon(wk.(lastCheck := s.now), wk.active.Keys) == Abandon(wk, wk.active.Keys).(lastCheck := s.now);
    }
  }

  lemma StartedKeeps(cfg: Config, s: State, w: nat, wk: Worker)
    requires Plausible(cfg) && WorkerOk(cfg, s, w, wk) && wk.claim.Some? && wk.claim.value.committed
    ensures WorkerOk(cfg, s, w, Started(wk, wk.claim.value.jobs))
  {
    var next := Started(wk, wk.claim.value.jobs);
    forall t | t in Live(next) ensures LeasedUntil(s, w, t.job, next.lastOk + cfg.lease - Slack(cfg)) {
      assert t in Live(wk) || t.job in wk.claim.value.jobs;
    }
    forall t | t in Live(next) && next.beat.Some? && Settled(next.beat.value, t.job)
      ensures LeasedUntil(s, w, t.job, next.beat.value.start + cfg.lease - (Slack(cfg) - Age(cfg)))
    {
      assert t in Live(wk) || t.job in wk.claim.value.jobs;
    }
  }

  lemma ConfirmedKeeps(cfg: Config, s: State, w: nat, wk: Worker)
    requires Plausible(cfg) && WorkerOk(cfg, s, w, wk) && wk.beat.Some? && wk.beat.value.committed
    ensures WorkerOk(cfg, s, w, Confirmed(wk, wk.beat.value.lost, s.now))
  {
    var next := Confirmed(wk, wk.beat.value.lost, s.now);
    assert forall t :: t in Live(next) ==> t in Live(wk) && t.job !in wk.beat.value.lost;
  }

  lemma ClaimCallsKeep(cfg: Config, s: State, w: nat, step: Step)
    requires AllOk(cfg, s) && Plausible(cfg) && w in s.workers && (step == ClaimStart(w) || step == ClaimFail(w))
    ensures var next := Do(cfg, s, step); w in next.workers && WorkerOk(cfg, next, w, next.workers[w])
  {
    Unharmed(cfg, s, Do(cfg, s, step), w, s.workers[w]);
  }

  lemma BeatStartKeeps(cfg: Config, s: State, w: nat)
    requires AllOk(cfg, s) && Plausible(cfg) && w in s.workers
    ensures var next := Do(cfg, s, BeatStart(w)); w in next.workers && WorkerOk(cfg, next, w, next.workers[w])
  {
    Unharmed(cfg, s, Do(cfg, s, BeatStart(w)), w, s.workers[w]);
    var wk := s.workers[w];
    assert forall t :: t in Live(wk) ==> t.job in wk.active;
  }

  lemma ClaimCommitKeeps(cfg: Config, s: State, w: nat, jobs: set<Job>)
    requires AllOk(cfg, s) && Plausible(cfg) && !cfg.reclaims && w in s.workers
    ensures var next := Do(cfg, s, ClaimCommit(w, jobs)); WorkerOk(cfg, next, w, next.workers[w])
  {
    var next, wk := Do(cfg, s, ClaimCommit(w, jobs)), s.workers[w];
    if MayClaim(cfg, s, wk, jobs) {
      forall t | t in Live(wk) ensures OwnedBy(next, w, t.job) && next.rows[t.job] == s.rows[t.job] {
        assert LeasedUntil(s, w, t.job, wk.lastOk + cfg.lease - Slack(cfg));
      }
      Unharmed(cfg, s, next, w, wk);
    }
  }

  lemma BeatCommitKeeps(cfg: Config, s: State, w: nat)
    requires AllOk(cfg, s) && Plausible(cfg) && w in s.workers
    ensures var next := Do(cfg, s, BeatCommit(w)); WorkerOk(cfg, next, w, next.workers[w])
  {
    var next, wk := Do(cfg, s, BeatCommit(w)), s.workers[w];
    if wk.beat.Some? && !wk.beat.value.committed {
      var after := next.workers[w];
      forall t | t in Live(after)
        ensures LeasedUntil(next, w, t.job, after.lastOk + cfg.lease - Slack(cfg))
        ensures Settled(after.beat.value, t.job) ==>
          LeasedUntil(next, w, t.job, after.beat.value.start + cfg.lease - (Slack(cfg) - Age(cfg)))
      {
        assert t in Live(wk);
        BeatenRow(cfg, s, w, wk.beat.value, t.job);
      }
      if wk.claim.Some? && wk.claim.value.committed {
        forall j | j in wk.claim.value.jobs
          ensures LeasedUntil(next, w, j, wk.claim.value.start + cfg.lease - Setback(cfg))
        {
          BeatenRow(cfg, s, w, wk.beat.value, j);
        }
      }
    }
  }

  /** A heartbeat leaves its worker's rows its own, and moves an expiry back at most to its own start. */
  lemma BeatenRow(cfg: Config, s: State, w: nat, beat: Call, job: Job)
    requires OwnedBy(s, w, job)
    ensures var rows := Beaten(cfg, s, w, beat);
            && job in rows && rows[job].owner == w
            && (job !in beat.jobs ==> rows[job] == s.rows[job])
            && (job in beat.jobs ==> rows[job].expires >= beat.start + cfg.lease)
            && (cfg.keepsLater ==> rows[job].expires >= s.rows[job].expires)
  {
  }

  lemma ReportKeeps(cfg: Config, s: State, w: nat, task: Task)
    requires AllOk(cfg, s) && w in s.workers
    ensures var next := Do(cfg, s, Report(w, task)); WorkerOk(cfg, next, w, next.workers[w])
  {
    var next, wk := Do(cfg, s, Report(w, task)), s.workers[w];
    if task in Live(wk) {
      assert next.workers[w].active == wk.active;
      assert forall t :: t in Live(next.workers[w]) ==> t in Live(wk) && t.job != task.job;
    }
  }

  lemma FinishKeeps(cfg: Config, s: State, w: nat, task: Task)
    requires AllOk(cfg, s) && w in s.workers
    ensures var next := Do(cfg, s, Finish(w, task)); WorkerOk(cfg, next, w, next.workers[w])
  {
    var wk := s.workers[w];
    if task in wk.running {
      assert forall t :: t in Live(Finished(wk, task)) ==> t in Live(wk) && t.job != task.job;
    }
  }

  lemma OwnStepKeeps(cfg: Config, s: State, step: Step)
    requires AllOk(cfg, s) && Plausible(cfg) && !cfg.reclaims
    requires !step.Tick? && !step.Recover? && !step.Boot? && !step.Crash? && step.w in s.workers
    ensures var next := Do(cfg, s, step); step.w in next.workers && WorkerOk(cfg, next, step.w, next.workers[step.w])
  {
    var w := step.w;
    var wk := s.workers[w];
    match step
    case ClaimCommit(_, jobs) => ClaimCommitKeeps(cfg, s, w, jobs);
    case ClaimApply(_) =>
      if wk.claim.Some? && wk.claim.value.committed {
        StartedKeeps(cfg, s, w, wk);
        Unharmed(cfg, s, Do(cfg, s, step), w, Started(wk, wk.claim.value.jobs));
      }
    case BeatCommit(_) => BeatCommitKeeps(cfg, s, w);
    case BeatApply(_) =>
      if wk.beat.Some? && wk.beat.value.committed {
        ConfirmedKeeps(cfg, s, w, wk);
        Unharmed(cfg, s, Do(cfg, s, step), w, Confirmed(wk, wk.beat.value.lost, s.now));
      }
    case BeatFail(_) =>
      if wk.beat.Some? {
        FenceKeeps(cfg, s, w, wk.(beat := None));
        Unharmed(cfg, s, Do(cfg, s, step), w, FenceCheck(cfg, wk.(beat := None), s.now));
      }
    case Watchdog(_) =>
      WatchdogKeeps(cfg, s, w, wk);
      Unharmed(cfg, s, Do(cfg, s, step), w, FenceCheck(cfg, wk.(lastCheck := s.now), s.now));
    case Report(_, task) => ReportKeeps(cfg, s, w, task);
    case Finish(_, task) => FinishKeeps(cfg, s, w, task);
    case BeatStart(_) => BeatStartKeeps(cfg, s, w);
    case _ => ClaimCallsKeep(cfg, s, w, step);
  }

  lemma StepKeeps(cfg: Config, s: State, step: Step)
    requires AllOk(cfg, s) && Plausible(cfg) && Roomy(cfg) && !cfg.reclaims
    ensures AllOk(cfg, Do(cfg, s, step))
  {
    var next := Do(cfg, s, step);
    if step.Recover? {
      RecoverKeeps(cfg, s, step.job);
    } else if !step.Tick? && !step.Boot? && !step.Crash? {
      forall w | w in next.workers ensures WorkerOk(cfg, next, w, next.workers[w]) {
        if step.w == w { OwnStepKeeps(cfg, s, step); } else { OthersKeep(cfg, s, step, w); }
      }
    } else if step.Tick? {
      TickKeeps(cfg, s, step.seconds);
    } else {
      forall w | w in next.workers ensures WorkerOk(cfg, next, w, next.workers[w]) {
        if w in s.workers { Unharmed(cfg, s, next, w, s.workers[w]); }
      }
    }
  }

  lemma TickKeeps(cfg: Config, s: State, seconds: real)
    requires AllOk(cfg, s)
    ensures AllOk(cfg, Do(cfg, s, Tick(seconds)))
  {
    forall w | w in s.workers && MayPass(cfg, s, seconds)
      ensures WorkerOk(cfg, s.(now := s.now + seconds), w, s.workers[w])
    {
      assert WorkerOk(cfg, s, w, s.workers[w]) && OnTime(cfg, s.workers[w], s.now + seconds);
    }
  }

  lemma {:induction false} AllOkHolds(cfg: Config, steps: seq<Step>)
    requires Plausible(cfg) && Roomy(cfg) && !cfg.reclaims
    ensures AllOk(cfg, Run(cfg, START, steps))
  {
    if steps != [] {
      AllOkHolds(cfg, steps[..|steps| - 1]);
      StepKeeps(cfg, Run(cfg, START, steps[..|steps| - 1]), steps[|steps| - 1]);
    }
  }

  /** Self-fencing is safe: with room for the delays, the fence window and one watchdog step inside a
      lease, whatever runs is leased and unexpired, and no job ever runs twice. */
  lemma SelfFencingIsSafe(cfg: Config, steps: seq<Step>)
    requires Plausible(cfg) && Roomy(cfg) && !cfg.reclaims
    ensures LeaseHeld(Run(cfg, START, steps)) && Exclusive(Run(cfg, START, steps))
  {
    AllOkHolds(cfg, steps);
    var s := Run(cfg, START, steps);
    forall w, t | w in s.workers && t in Live(s.workers[w])
      ensures OwnedBy(s, w, t.job) && s.rows[t.job].expires > s.now
      ensures t.job in s.workers[w].active && s.workers[w].active[t.job] == t.serial
    {
      LiveLeaseLasts(cfg, s, w, s.workers[w], t);
    }
  }

  // ---------------------------------------------------------------- what keeps a task running

  predicate Runs(s: State, w: nat, task: Task) { w in s.workers && task in s.workers[w].running }

  predicate FenceDue(cfg: Config, s: State, w: nat) {
    w in s.workers && !s.workers[w].fenced && s.now - s.workers[w].lastOk >= cfg.fence
  }

  /** A heartbeat on its way back has found the job lost. */
  predicate FoundLost(s: State, w: nat, job: Job) {
    w in s.workers && s.workers[w].beat.Some? && s.workers[w].beat.value.committed && job in s.workers[w].beat.value.lost
  }

  predicate Stops(cfg: Config, s: State, step: Step, w: nat, task: Task) {
    || step == Crash(w) || step == Finish(w, task)
    || (step == BeatApply(w) && FoundLost(s, w, task.job))
    || (step == Watchdog(w) && FenceDue(cfg, s, w))
    || (step == BeatFail(w) && w in s.workers && s.workers[w].beat.Some? && FenceDue(cfg, s, w))
  }

  /** A running task stops exactly when it ends, its worker crashes or is fenced with its window run out,
      or a confirmed heartbeat has found its job lost: renewing some jobs and losing others leaves it alone. */
  lemma StopsExactlyWhen(cfg: Config, s: State, step: Step, w: nat, task: Task)
    requires Runs(s, w, task) && Tracked(s.workers[w])
    ensures Runs(Do(cfg, s, step), w, task) <==> !Stops(cfg, s, step, w, task)
  {
  }

  /** And a task starts exactly when a committed claim of its job comes back to an unfenced worker. */
  lemma StartsExactlyWhen(cfg: Config, s: State, step: Step, w: nat, task: Task)
    requires w in s.workers && !Runs(s, w, task)
    ensures Runs(Do(cfg, s, step), w, task) <==>
      && step == ClaimApply(w) && !s.workers[w].fenced && s.workers[w].claim.Some? && s.workers[w].claim.value.committed
      && task.job in s.workers[w].claim.value.jobs && task.serial == s.workers[w].serial
  {
  }

  /** A confirmed heartbeat leaves the worker unfenced, just confirmed, and tracking all but what was lost. */
  lemma BeatApplied(cfg: Config, s: State, w: nat)
    requires w in s.workers && s.workers[w].beat.Some? && s.workers[w].beat.value.committed && Tracked(s.workers[w])
    ensures var wk, lost, next := s.workers[w], s.workers[w].beat.value.lost, Do(cfg, s, BeatApply(w));
            && next.rows == s.rows && next.now == s.now && w in next.workers
            && !next.workers[w].fenced && next.workers[w].lastOk == s.now && next.workers[w].beat.None?
            && (forall t :: t in next.workers[w].running <==> t in wk.running && t.job !in lost)
            && (forall j :: j in next.workers[w].active <==> j in wk.active && j !in lost)
            && (forall j :: j in next.workers[w].active ==> next.workers[w].active[j] == wk.active[j])
            && forall v :: v != w && v in s.workers ==> v in next.workers && next.workers[v] == s.workers[v]
  {
  }

  /** What a heartbeat finds lost is what its worker does not own when it commits. */
  lemma LostWhenCommitted(cfg: Config, s: State, w: nat, job: Job)
    requires w in s.workers && s.workers[w].beat.Some? && !s.workers[w].beat.value.committed
    ensures FoundLost(Do(cfg, s, BeatCommit(w)), w, job) <==> job in s.workers[w].beat.value.jobs && !OwnedBy(s, w, job)
  {
  }

  predicate AllTracked(s: State) { forall w :: w in s.workers ==> Tracked(s.workers[w]) }

  lemma TrackedStays(cfg: Config, s: State, step: Step)
    requires AllTracked(s) && !cfg.reclaims
    ensures AllTracked(Do(cfg, s, step))
  {
    var next := Do(cfg, s, step);
    forall w | w in next.workers ensures Tracked(next.workers[w]) {
      if !step.Tick? && !step.Recover? && !step.Boot? && !step.Crash? && step.w == w {
        if w in s.workers { OwnStepTracks(cfg, s, step); }
      } else {
        assert w in s.workers ==> next.workers[w] == s.workers[w];
      }
    }
  }

  lemma OwnStepTracks(cfg: Config, s: State, step: Step)
    requires !step.Tick? && !step.Recover? && !step.Boot? && !step.Crash? && !cfg.reclaims
    requires step.w in s.workers && Tracked(s.workers[step.w])
    ensures var next := WorkerStep(cfg, s, s.workers[step.w], step); step.w in next.workers && Tracked(next.workers[step.w])
  {
  }

  lemma {:induction false} TrackedHolds(cfg: Config, steps: seq<Step>)
    requires !cfg.reclaims
    ensures AllTracked(Run(cfg, START, steps))
  {
    if steps != [] {
      TrackedHolds(cfg, steps[..|steps| - 1]);
      TrackedStays(cfg, Run(cfg, START, steps[..|steps| - 1]), steps[|steps| - 1]);
    }
  }

  /** Nothing in these steps ends the task, crashes its worker or fences it with its window run out, and
      its row stays its worker's. */
  predicate Undisturbed(cfg: Config, s: State, steps: seq<Step>, w: nat, task: Task) {
    forall n :: 0 <= n < |steps| ==> LeftAlone(cfg, Run(cfg, s, steps[..n]), steps[n], w, task)
  }

  predicate LeftAlone(cfg: Config, s: State, step: Step, w: nat, task: Task) {
    && OwnedBy(s, w, task.job) && step != Crash(w) && step != Finish(w, task)
    && (step == Watchdog(w) || step == BeatFail(w) ==> !FenceDue(cfg, s, w))
  }

  /** In every run without reclaiming, a task whose row stays its worker's runs on until it ends, its
      worker crashes, or the fence comes down on a window that has run out. The one thing to know
      beforehand is that no heartbeat already committed has found the job lost. */
  lemma {:induction false} OwnedTaskRunsOn(cfg: Config, before: seq<Step>, steps: seq<Step>, w: nat, task: Task)
    requires !cfg.reclaims && Runs(Run(cfg, START, before), w, task) && !FoundLost(Run(cfg, START, before), w, task.job)
    requires Undisturbed(cfg, Run(cfg, START, before), steps, w, task)
    ensures var t := Run(cfg, Run(cfg, START, before), steps); Runs(t, w, task) && !FoundLost(t, w, task.job)
  {
    var s := Run(cfg, START, before);
    if steps != [] {
      var init, step := steps[..|steps| - 1], steps[|steps| - 1];
      forall n | 0 <= n < |init| ensures LeftAlone(cfg, Run(cfg, s, init[..n]), init[n], w, task) {
        assert init[..n] == steps[..n] && init[n] == steps[n];
      }
      OwnedTaskRunsOn(cfg, before, init, w, task);
      var t := Run(cfg, s, init);
      assert LeftAlone(cfg, t, step, w, task);
      RunConcat(cfg, START, before, init);
      TrackedHolds(cfg, before + init);
      StopsExactlyWhen(cfg, t, step, w, task);
      VerdictStays(cfg, t, step, w, task.job);
    }
  }

  /** A new verdict against a job needs a heartbeat that commits while the row is not its worker's. */
  lemma VerdictStays(cfg: Config, s: State, step: Step, w: nat, job: Job)
    requires w in s.workers && OwnedBy(s, w, job) && !FoundLost(s, w, job)
    ensures !FoundLost(Do(cfg, s, step), w, job)
  {
    if step == BeatCommit(w) && s.workers[w].beat.Some? && !s.workers[w].beat.value.committed { LostWhenCommitted(cfg, s, w, job); }
  }

  // ---------------------------------------------------------------- the room is needed

  lemma RunSnoc(cfg: Config, s: State, steps: seq<Step>, step: Step)
    ensures Run(cfg, s, steps + [step]) == Do(cfg, Run(cfg, s, steps), step)
  {
    assert (steps + [step])[..|steps|] == steps;
  }

  lemma {:induction false} RunConcat(cfg: Config, s: State, first: seq<Step>, second: seq<Step>)
    ensures Run(cfg, s, first + second) == Run(cfg, Run(cfg, s, first), second)
  {
    if second == [] {
      assert first + second == first;
    } else {
      assert first + second == (first + second[..|second| - 1]) + [second[|second| - 1]];
      RunSnoc(cfg, s, first + second[..|second| - 1], second[|second| - 1]);
      RunConcat(cfg, s, first, second[..|second| - 1]);
    }
  }

  lemma RunTwo(cfg: Config, s: State, x: Step, y: Step)
    ensures Run(cfg, s, [x, y]) == Do(cfg, Do(cfg, s, x), y)
  {
    RunSnoc(cfg, s, [], x);
    RunSnoc(cfg, s, [x], y);
    assert [] + [x] == [x] && [x] + [y] == [x, y];
  }

  lemma RunThree(cfg: Config, s: State, x: Step, y: Step, z: Step)
    ensures Run(cfg, s, [x, y, z]) == Do(cfg, Do(cfg, Do(cfg, s, x), y), z)
  {
    RunTwo(cfg, s, x, y);
    RunSnoc(cfg, s, [x, y], z);
    assert [x, y] + [z] == [x, y, z];
  }

  /** A duration cut into equal steps none of which outlasts the watchdog. */
  lemma Cut(duration: real, most: real) returns (n: nat, step: real)
    requires duration >= 0.0 && most > 0.0
    ensures 0.0 <= step <= most && n as real * step == duration
  {
    n := (duration / most).Floor + 1;
    var count := n as real;
    assert count >= duration / most;
    assert count * most >= duration by {
      assert duration / most * most == duration;
      assert (count - duration / most) * most >= 0.0;
    }
    step := duration / count;
    Divided(duration, count, most);
  }

  lemma Divided(x: real, count: real, most: real)
    requires count > 0.0 && count * most >= x
    ensures x / count <= most
  {
    assert x / count * count == x;
    assert (most - x / count) * count >= 0.0;
  }

  /** Only worker `w` is up, just checked, with every deadline at least `duration` away. */
  predicate Alone(cfg: Config, s: State, w: nat, duration: real) {
    && s.workers.Keys == {w} && s.workers[w].lastCheck == s.now
    && (s.workers[w].claim.Some? ==> s.now + duration <= s.workers[w].claim.value.start + cfg.delay)
    && (s.workers[w].beat.Some? ==> s.now + duration <= s.workers[w].beat.value.start + cfg.delay)
  }

  /** The worker after waiting with nothing but checks: as it was, if its window did not run out. */
  predicate Waited(cfg: Config, wk: Worker, after: Worker, now: real) {
    && after.lastCheck == now && after.claim == wk.claim && after.beat == wk.beat
    && (!wk.fenced && now - wk.lastOk < cfg.fence ==> after == wk.(lastCheck := now))
    && (wk.active == map[] ==> after == wk.(lastCheck := now, fenced := after.fenced))
  }

  lemma Product(n: nat, step: real)
    requires n > 0 && step >= 0.0
    ensures n as real * step == (n - 1) as real * step + step && (n - 1) as real * step >= 0.0
  {
  }

  lemma {:induction false} WaitSteps(cfg: Config, s: State, w: nat, n: nat, step: real, total: real)
    returns (steps: seq<Step>)
    requires total == n as real * step && Alone(cfg, s, w, total) && 0.0 <= step <= cfg.watchdog
    ensures Later(cfg, s, Run(cfg, s, steps), w, total)
    decreases n
  {
    if n == 0 {
      steps := [];
    } else {
      Product(n, step);
      var before := WaitSteps(cfg, s, w, n - 1, step, total - step);
      steps := OneMore(cfg, s, w, before, total - step, step);
    }
  }

  lemma OneMore(cfg: Config, s: State, w: nat, before: seq<Step>, first: real, step: real) returns (steps: seq<Step>)
    requires first >= 0.0 && Alone(cfg, s, w, first + step) && 0.0 <= step <= cfg.watchdog
    requires Later(cfg, s, Run(cfg, s, before), w, first)
    ensures Later(cfg, s, Run(cfg, s, steps), w, first + step)
  {
    var t := Run(cfg, s, before);
    RunConcat(cfg, s, before, [Tick(step), Watchdog(w)]);
    RunTwo(cfg, t, Tick(step), Watchdog(w));
    steps := before + [Tick(step), Watchdog(w)];
    OneWait(cfg, t, w, step);
    LaterStill(cfg, s, t, Run(cfg, s, steps), w, first, step);
  }

  predicate Later(cfg: Config, s: State, t: State, w: nat, duration: real)
    requires w in s.workers
  {
    && t.now == s.now + duration && t.rows == s.rows && t.gone == s.gone && t.workers.Keys == {w}
    && Waited(cfg, s.workers[w], t.workers[w], t.now)
  }

  lemma LaterStill(cfg: Config, s: State, t: State, u: State, w: nat, first: real, second: real)
    requires w in s.workers && w in t.workers && first >= 0.0 && second >= 0.0
    requires Later(cfg, s, t, w, first) && Later(cfg, t, u, w, second)
    ensures Later(cfg, s, u, w, first + second)
  {
  }

  lemma OneWait(cfg: Config, s: State, w: nat, step: real)
    requires Alone(cfg, s, w, step) && 0.0 <= step <= cfg.watchdog
    ensures Later(cfg, s, Do(cfg, Do(cfg, s, Tick(step)), Watchdog(w)), w, step)
  {
    assert MayPass(cfg, s, step);
    var wk := s.workers[w];
    if wk.active == map[] {
      assert wk.active - wk.active.Keys == map[];
      assert Abandon(wk.(lastCheck := s.now + step), {}).running == wk.running;
    }
  }

  lemma Wait(cfg: Config, s: State, w: nat, duration: real) returns (steps: seq<Step>)
    requires Plausible(cfg) && duration >= 0.0 && Alone(cfg, s, w, duration)
    ensures Later(cfg, s, Run(cfg, s, steps), w, duration)
  {
    var n, step := Cut(duration, cfg.watchdog);
    steps := WaitSteps(cfg, s, w, n, step, duration);
  }

  /** A time that a heartbeat can be on its way without its worker being fenced meanwhile. */
  predicate Feasible(cfg: Config, age: real) { 0.0 <= age <= cfg.delay && age < cfg.fence + cfg.watchdog }

  /** A worker just confirmed can wait that long unfenced: the last check comes in time, and the next one
      is not yet due. */
  lemma Linger(cfg: Config, s: State, w: nat, age: real) returns (steps: seq<Step>)
    requires Plausible(cfg) && Feasible(cfg, age) && Alone(cfg, s, w, age)
    requires !s.workers[w].fenced && s.workers[w].lastOk == s.now
    ensures var t := Run(cfg, s, steps);
            && t.now == s.now + age && t.rows == s.rows && t.gone == s.gone && t.workers.Keys == {w}
            && t.workers[w] == s.workers[w].(lastCheck := t.workers[w].lastCheck)
  {
    var first := if age > cfg.watchdog then age - cfg.watchdog else 0.0;
    var wait := Wait(cfg, s, w, first);
    var t := Run(cfg, s, wait);
    RunSnoc(cfg, s, wait, Tick(age - first));
    assert MayPass(cfg, t, age - first);
    steps := wait + [Tick(age - first)];
  }

  /** A check right after a confirmation changes nothing but the time of the last check. */
  lemma Rechecked(cfg: Config, s: State, w: nat)
    requires Plausible(cfg) && w in s.workers && !s.workers[w].fenced && s.workers[w].lastOk == s.now
    ensures Do(cfg, s, Watchdog(w)) == Put(s, w, s.workers[w].(lastCheck := s.now))
  {
  }

  /** Worker 0 has a claim for job 0 on its way back, just confirmed, idle otherwise; the lease in the
      queue has been set back that far behind the claim. */
  predicate Primed(cfg: Config, s: State, setback: real) {
    && s.workers.Keys == {0} && 1 !in s.gone
    && s.rows == map[0 := Lease(0, s.now + cfg.lease - setback)]
    && (var wk := s.workers[0];
        && wk.claim == Some(Call(s.now, {0}, true, {})) && wk.beat.None? && !wk.fenced
        && wk.lastOk == s.now && wk.lastCheck == s.now && wk.active == map[] && wk.running == {}
        && (forall t :: t in wk.reported ==> t.serial < wk.serial))
  }

  /** Worker 0 alone. */
  function Solo(now: real, rows: map<Job, Lease>, wk: Worker): State { State(now, rows, map[0 := wk], {}) }

  const FIRST_CLAIM := [Boot(0), ClaimStart(0), ClaimCommit(0, {0})]
  const FIRST_TASK := [ClaimApply(0), BeatStart(0)] + [Report(0, Task(0, 0)), Finish(0, Task(0, 0))]
  const SECOND_CLAIM := [ClaimStart(0), ClaimCommit(0, {0})] + [BeatCommit(0), BeatApply(0)] + [Watchdog(0)]

  lemma AfterFirstClaim(cfg: Config)
    ensures Run(cfg, START, FIRST_CLAIM)
         == Solo(0.0, map[0 := Lease(0, cfg.lease)], Worker(0.0, 0.0, false, map[], {}, {}, 0, Some(Call(0.0, {0}, true, {})), None))
  {
    RunThree(cfg, START, Boot(0), ClaimStart(0), ClaimCommit(0, {0}));
    assert Do(cfg, START, Boot(0)) == Solo(0.0, map[], Booted(0.0));
  }

  /** A first task for the job, reported while a heartbeat that still names it is on its way. */
  lemma AfterFirstTask(cfg: Config, rows: map<Job, Lease>)
    requires rows.Keys == {0} && rows[0].owner == 0
    ensures Run(cfg, Solo(0.0, rows, Worker(0.0, 0.0, false, map[], {}, {}, 0, Some(Call(0.0, {0}, true, {})), None)), FIRST_TASK)
         == Solo(0.0, map[], Worker(0.0, 0.0, false, map[], {}, {Task(0, 0)}, 1, None, Some(Call(0.0, {0}, false, {}))))
  {
    var s := Solo(0.0, rows, Worker(0.0, 0.0, false, map[], {}, {}, 0, Some(Call(0.0, {0}, true, {})), None));
    RunConcat(cfg, s, [ClaimApply(0), BeatStart(0)], [Report(0, Task(0, 0)), Finish(0, Task(0, 0))]);
    RunTwo(cfg, s, ClaimApply(0), BeatStart(0));
    FirstStart(cfg, rows);
    var t := Run(cfg, s, [ClaimApply(0), BeatStart(0)]);
    RunTwo(cfg, t, Report(0, Task(0, 0)), Finish(0, Task(0, 0)));
    FirstEnd(cfg, rows);
  }

  lemma FirstStart(cfg: Config, rows: map<Job, Lease>)
    ensures Do(cfg, Do(cfg, Solo(0.0, rows, Worker(0.0, 0.0, false, map[], {}, {}, 0, Some(Call(0.0, {0}, true, {})), None)),
                       ClaimApply(0)), BeatStart(0))
         == Solo(0.0, rows, Worker(0.0, 0.0, false, map[0 := 0], {Task(0, 0)}, {}, 1, None, Some(Call(0.0, {0}, false, {}))))
  {
    var wk := Worker(0.0, 0.0, false, map[], {}, {}, 0, Some(Call(0.0, {0}, true, {})), None);
    assert Started(wk, {0}).active == map[0 := 0] && Started(wk, {0}).running == {Task(0, 0)};
    assert map[0 := 0].Keys == {0};
  }

  lemma FirstEnd(cfg: Config, rows: map<Job, Lease>)
    requires rows.Keys == {0} && rows[0].owner == 0
    ensures Do(cfg, Do(cfg, Solo(0.0, rows, Worker(0.0, 0.0, false, map[0 := 0], {Task(0, 0)}, {}, 1, None, Some(Call(0.0, {0}, false, {})))),
                       Report(0, Task(0, 0))), Finish(0, Task(0, 0)))
         == Solo(0.0, map[], Worker(0.0, 0.0, false, map[], {}, {Task(0, 0)}, 1, None, Some(Call(0.0, {0}, false, {}))))
  {
    assert rows - {0} == map[] && map[0 := 0] - {0} == map[];
    assert {} + {Task(0, 0)} == {Task(0, 0)} && {Task(0, 0)} - {Task(0, 0)} == {};
  }

  /** The job is claimed again before that heartbeat commits, and gets the heartbeat's older expiry. */
  lemma AfterSecondClaim(cfg: Config, wk: Worker, age: real)
    requires Plausible(cfg) && !cfg.keepsLater && age >= 0.0 && Recovering(wk) && wk.claim.None?
    ensures Primed(cfg, Run(cfg, Solo(age, map[], wk), SECOND_CLAIM), age)
  {
    var s := Solo(age, map[], wk);
    var four := [ClaimStart(0), ClaimCommit(0, {0})] + [BeatCommit(0), BeatApply(0)];
    RunFour(cfg, s, ClaimStart(0), ClaimCommit(0, {0}), BeatCommit(0), BeatApply(0));
    ClaimTaken(cfg, age, wk);
    Overwritten(cfg, wk.(claim := Some(Call(age, {0}, true, {}))), age);
    RunSnoc(cfg, s, four, Watchdog(0));
    Rechecked(cfg, Run(cfg, s, four), 0);
  }

  /** An idle worker with a heartbeat on its way that names job 0. */
  predicate Recovering(wk: Worker) {
    && !wk.fenced && wk.active == map[] && wk.running == {}
    && (forall t :: t in wk.reported ==> t.serial < wk.serial) && wk.beat == Some(Call(0.0, {0}, false, {}))
  }

  lemma RunFour(cfg: Config, s: State, x: Step, y: Step, z: Step, w: Step)
    ensures Run(cfg, s, [x, y] + [z, w]) == Do(cfg, Do(cfg, Do(cfg, Do(cfg, s, x), y), z), w)
  {
    RunConcat(cfg, s, [x, y], [z, w]);
    RunTwo(cfg, s, x, y);
    RunTwo(cfg, Run(cfg, s, [x, y]), z, w);
  }

  lemma ClaimTaken(cfg: Config, now: real, wk: Worker)
    requires wk.claim.None? && !wk.fenced && wk.active == map[]
    ensures Do(cfg, Do(cfg, Solo(now, map[], wk), ClaimStart(0)), ClaimCommit(0, {0}))
         == Solo(now, map[0 := Lease(0, now + cfg.lease)], wk.(claim := Some(Call(now, {0}, true, {}))))
  {
    assert Do(cfg, Solo(now, map[], wk), ClaimStart(0)) == Solo(now, map[], wk.(claim := Some(Call(now, {}, false, {}))));
  }

  lemma Overwritten(cfg: Config, wk: Worker, age: real)
    requires Plausible(cfg) && !cfg.keepsLater && Recovering(wk) && wk.claim == Some(Call(age, {0}, true, {}))
    ensures var t := Do(cfg, Do(cfg, Solo(age, map[0 := Lease(0, age + cfg.lease)], wk), BeatCommit(0)), BeatApply(0));
            t == Solo(age, map[0 := Lease(0, cfg.lease)], wk.(beat := None, lastOk := age))
  {
    var s := Solo(age, map[0 := Lease(0, age + cfg.lease)], wk);
    assert Beaten(cfg, s, 0, wk.beat.value) == map[0 := Lease(0, cfg.lease)];
    var t := Do(cfg, s, BeatCommit(0));
    assert t.workers[0].beat.value.lost == {};
    assert t.workers == map[0 := t.workers[0]];
    assert t == Solo(age, map[0 := Lease(0, cfg.lease)], wk.(beat := Some(Call(0.0, {0}, true, {}))));
    assert t.workers[0].active - {} == map[];
    assert Confirmed(t.workers[0], {}, age).running == {};
  }

  lemma PrimedSomehow(cfg: Config, age: real) returns (steps: seq<Step>)
    requires Plausible(cfg) && Feasible(cfg, age)
    ensures Primed(cfg, Run(cfg, START, steps), if cfg.keepsLater then 0.0 else age)
  {
    AfterFirstClaim(cfg);
    steps := FIRST_CLAIM;
    if !cfg.keepsLater {
      RunConcat(cfg, START, FIRST_CLAIM, FIRST_TASK);
      AfterFirstTask(cfg, map[0 := Lease(0, cfg.lease)]);
      var s := Run(cfg, START, FIRST_CLAIM + FIRST_TASK);
      var wait := Linger(cfg, s, 0, age);
      RunConcat(cfg, START, FIRST_CLAIM + FIRST_TASK, wait);
      var t := Run(cfg, s, wait);
      assert t.workers == map[0 := t.workers[0]];
      assert t == Solo(age, map[], t.workers[0]);
      AfterSecondClaim(cfg, t.workers[0], age);
      steps := FIRST_CLAIM + FIRST_TASK + wait + SECOND_CLAIM;
      RunConcat(cfg, START, FIRST_CLAIM + FIRST_TASK + wait, SECOND_CLAIM);
    }
  }

  /** The worker runs job 0, confirmed as late as a heartbeat can be that missed the job. */
  predicate Overdue(cfg: Config, s: State, expires: real) {
    && s.workers.Keys == {0} && 1 !in s.gone && s.rows == map[0 := Lease(0, expires)]
    && (var wk := s.workers[0];
        && wk.claim.None? && wk.beat.None? && !wk.fenced && wk.lastOk == s.now && wk.lastCheck == s.now
        && exists task :: task in Live(wk) && task.job == 0)
  }

  lemma FreshBeat(cfg: Config, s: State)
    requires 0 in s.workers && s.workers[0].beat.None? && s.workers[0].active == map[] && s.workers[0].running == {}
    ensures var t := Do(cfg, Do(cfg, Do(cfg, s, BeatStart(0)), BeatCommit(0)), BeatApply(0));
            t == s.(workers := s.workers[0 := s.workers[0].(lastOk := s.now, fenced := false)])
  {
    var wk := s.workers[0];
    assert wk.active.Keys == {};
    var t := Do(cfg, s, BeatStart(0));
    assert t == Put(s, 0, wk.(beat := Some(Call(s.now, {}, false, {}))));
    IdleBeatCommit(cfg, t);
    var u := Do(cfg, t, BeatCommit(0));
    assert u == Put(s, 0, wk.(beat := Some(Call(s.now, {}, true, {}))));
    assert wk.active - {} == wk.active;
    assert Confirmed(u.workers[0], {}, s.now) == wk.(lastOk := s.now, fenced := false);
  }

  /** A heartbeat of no jobs writes nothing. */
  lemma IdleBeatCommit(cfg: Config, s: State)
    requires 0 in s.workers && s.workers[0].beat.Some?
    requires s.workers[0].beat.value.jobs == {} && !s.workers[0].beat.value.committed
    ensures Do(cfg, s, BeatCommit(0))
         == Put(s, 0, s.workers[0].(beat := Some(s.workers[0].beat.value.(committed := true, lost := {}))))
  {
    var beat := s.workers[0].beat.value;
    assert Beaten(cfg, s, 0, beat) == s.rows;
    assert Lost(s, 0, beat) == {};
  }

  /** A beat starts just before the claim is applied, and so misses the job. */
  lemma MissedByBeat(cfg: Config, s: State)
    requires 0 in s.workers && s.workers[0].beat.None? && !s.workers[0].fenced && s.workers[0].active == map[]
    requires s.workers[0].claim.Some? && s.workers[0].claim.value.committed && s.workers[0].claim.value.jobs == {0}
    requires s.workers[0].running == {} && forall t :: t in s.workers[0].reported ==> t.serial < s.workers[0].serial
    ensures var t := Do(cfg, Do(cfg, s, BeatStart(0)), ClaimApply(0)); var wk := s.workers[0];
            t == s.(workers := s.workers[0 := wk.(beat := Some(Call(s.now, {}, false, {})), claim := None,
                     serial := wk.serial + 1, active := map[0 := wk.serial], running := {Task(0, wk.serial)})])
  {
    var wk := s.workers[0];
    assert wk.active.Keys == {};
    var next := wk.(beat := Some(Call(s.now, {}, false, {})));
    assert Do(cfg, s, BeatStart(0)) == Put(s, 0, next);
    assert Started(next, {0}).active == map[0 := wk.serial] && Started(next, {0}).running == {Task(0, wk.serial)};
  }

  lemma LateConfirm(cfg: Config, s: State)
    requires 0 in s.workers && s.workers[0].beat.Some? && s.workers[0].beat.value.jobs == {} && !s.workers[0].beat.value.committed
    ensures var t := Do(cfg, Do(cfg, s, BeatCommit(0)), BeatApply(0)); var wk := s.workers[0];
            t == s.(workers := s.workers[0 := wk.(beat := None, lastOk := s.now, fenced := false)])
  {
    IdleBeatCommit(cfg, s);
    var wk := s.workers[0];
    assert wk.active - {} == wk.active;
    assert Abandon(wk, {}).running == wk.running;
  }

  const FRESH_BEAT := [BeatStart(0), BeatCommit(0), BeatApply(0)]

  lemma Refreshed(cfg: Config, s: State, setback: real) returns (steps: seq<Step>)
    requires Plausible(cfg) && Primed(cfg, s, setback)
    ensures var t := Run(cfg, s, steps);
            && t.now == s.now + cfg.delay && t.rows == s.rows && t.gone == s.gone && t.workers.Keys == {0}
            && t.workers[0] == s.workers[0].(lastOk := t.now, lastCheck := t.now)
  {
    var wait := Wait(cfg, s, 0, cfg.delay);
    var t := Run(cfg, s, wait);
    RunConcat(cfg, s, wait, FRESH_BEAT);
    RunThree(cfg, t, BeatStart(0), BeatCommit(0), BeatApply(0));
    FreshBeat(cfg, t);
    steps := wait + FRESH_BEAT;
  }

  const LATE_BEAT := [BeatCommit(0), BeatApply(0), Watchdog(0)]

  lemma ConfirmedLate(cfg: Config, s: State, age: real) returns (steps: seq<Step>)
    requires Plausible(cfg) && Feasible(cfg, age) && s.workers.Keys == {0}
    requires var wk := s.workers[0];
             && wk.claim.None? && wk.beat == Some(Call(s.now, {}, false, {})) && !wk.fenced
             && wk.lastOk == s.now && wk.lastCheck == s.now
    ensures var t := Run(cfg, s, steps);
            && t.now == s.now + age && t.rows == s.rows && t.gone == s.gone && t.workers.Keys == {0}
            && t.workers[0] == s.workers[0].(beat := None, lastOk := t.now, lastCheck := t.now)
  {
    var wait := Linger(cfg, s, 0, age);
    var t := Run(cfg, s, wait);
    RunConcat(cfg, s, wait, LATE_BEAT);
    RunThree(cfg, t, BeatCommit(0), BeatApply(0), Watchdog(0));
    LateConfirm(cfg, t);
    Rechecked(cfg, Do(cfg, Do(cfg, t, BeatCommit(0)), BeatApply(0)), 0);
    steps := wait + LATE_BEAT;
  }

  lemma OverdueAfterPrimed(cfg: Config, s: State, setback: real, age: real) returns (steps: seq<Step>)
    requires Plausible(cfg) && Feasible(cfg, age) && Primed(cfg, s, setback)
    ensures var t := Run(cfg, s, steps);
            t.now == s.now + cfg.delay + age && Overdue(cfg, t, s.rows[0].expires)
  {
    var first := Refreshed(cfg, s, setback);
    var t := Run(cfg, s, first);
    var second := MissedAndConfirmed(cfg, t, age);
    steps := first + second;
    RunConcat(cfg, s, first, second);
  }

  lemma MissedAndConfirmed(cfg: Config, s: State, age: real) returns (steps: seq<Step>)
    requires Plausible(cfg) && Feasible(cfg, age) && s.workers.Keys == {0} && 1 !in s.gone && s.rows.Keys == {0} && s.rows[0].owner == 0
    requires var wk := s.workers[0];
             && wk.claim.Some? && wk.claim.value.committed && wk.claim.value.jobs == {0} && wk.beat.None? && !wk.fenced
             && wk.lastOk == s.now && wk.lastCheck == s.now && wk.active == map[] && wk.running == {}
             && (forall t :: t in wk.reported ==> t.serial < wk.serial)
    ensures var t := Run(cfg, s, steps); t.now == s.now + age && Overdue(cfg, t, s.rows[0].expires)
  {
    RunTwo(cfg, s, BeatStart(0), ClaimApply(0));
    MissedByBeat(cfg, s);
    var t := Run(cfg, s, [BeatStart(0), ClaimApply(0)]);
    var late := ConfirmedLate(cfg, t, age);
    RunConcat(cfg, s, [BeatStart(0), ClaimApply(0)], late);
    steps := [BeatStart(0), ClaimApply(0)] + late;
    assert s.rows == map[0 := Lease(0, s.rows[0].expires)];
    assert Task(0, s.workers[0].serial) in Live(Run(cfg, s, steps).workers[0]);
  }

  const TAKEOVER := [Recover(0), Boot(1), ClaimStart(1)] + [ClaimCommit(1, {0}), ClaimApply(1)]

  /** Once the row has run out another worker gets the job while the first still runs it. */
  lemma TakenOver(cfg: Config, s: State, task: Task)
    requires s.workers.Keys == {0} && 1 !in s.gone && task.job == 0 && task in Live(s.workers[0])
    requires s.rows.Keys == {0} && s.rows[0].expires <= s.now
    ensures !Exclusive(Run(cfg, s, TAKEOVER))
  {
    RunConcat(cfg, s, [Recover(0), Boot(1), ClaimStart(1)], [ClaimCommit(1, {0}), ClaimApply(1)]);
    RunThree(cfg, s, Recover(0), Boot(1), ClaimStart(1));
    SecondClaims(cfg, s);
    var t := Run(cfg, s, [Recover(0), Boot(1), ClaimStart(1)]);
    RunTwo(cfg, t, ClaimCommit(1, {0}), ClaimApply(1));
    SecondStarts(cfg, t);
    var u := Run(cfg, t, [ClaimCommit(1, {0}), ClaimApply(1)]);
    assert Task(0, 0) in Live(u.workers[1]) && u.workers[0] == s.workers[0];
  }

  lemma SecondClaims(cfg: Config, s: State)
    requires s.workers.Keys == {0} && 1 !in s.gone && s.rows.Keys == {0} && s.rows[0].expires <= s.now
    ensures var t := Do(cfg, Do(cfg, Do(cfg, s, Recover(0)), Boot(1)), ClaimStart(1));
            t.rows == map[] && t.workers == s.workers[1 := Booted(s.now).(claim := Some(Call(s.now, {}, false, {})))]
  {
    assert s.rows - {0} == map[];
  }

  lemma SecondStarts(cfg: Config, s: State)
    requires s.rows == map[] && 0 in s.workers && 1 in s.workers && s.workers[1].active == map[]
    requires s.workers[1].claim.Some? && !s.workers[1].claim.value.committed && !s.workers[1].fenced
    ensures var t := Do(cfg, Do(cfg, s, ClaimCommit(1, {0})), ClaimApply(1));
            && 0 in t.workers && t.workers[0] == s.workers[0] && 1 in t.workers
            && t.workers[1].running == s.workers[1].running + {Task(0, s.workers[1].serial)} && t.workers[1].reported == s.workers[1].reported
  {
  }

  /** What a run with heartbeats of that age uses up. */
  function Used(cfg: Config, age: real): real {
    cfg.delay + age + (if cfg.keepsLater then 0.0 else age) + cfg.fence + cfg.watchdog
  }

  /** Heartbeats of the greatest age, or almost, use up more than a lease that has not the room. */
  lemma SomeAge(cfg: Config) returns (age: real)
    requires Plausible(cfg) && !Roomy(cfg)
    ensures Feasible(cfg, age) && Used(cfg, age) > cfg.lease
  {
    age := cfg.delay;
    if cfg.delay >= cfg.fence + cfg.watchdog {
      var excess := Slack(cfg) + cfg.fence + cfg.watchdog - cfg.lease;
      var less := if excess / 4.0 < Age(cfg) / 2.0 then excess / 4.0 else Age(cfg) / 2.0;
      age := Age(cfg) - less;
    }
  }

  /** Without the room, a job runs twice in some run that keeps every deadline. */
  lemma RoomIsNeeded(cfg: Config) returns (steps: seq<Step>)
    requires Plausible(cfg) && !Roomy(cfg)
    ensures !Exclusive(Run(cfg, START, steps))
  {
    var age := SomeAge(cfg);
    steps := PrimedSomehow(cfg, age);
    var s := Run(cfg, START, steps);
    var more := OverdueAfterPrimed(cfg, s, if cfg.keepsLater then 0.0 else age, age);
    RunConcat(cfg, START, steps, more);
    var last := RunsOut(cfg, Run(cfg, s, more), Used(cfg, age) - cfg.lease);
    RunConcat(cfg, START, steps + more, last);
    steps := steps + more + last;
  }

  /** The lease runs out before the fence comes down. */
  lemma RunsOut(cfg: Config, s: State, excess: real) returns (steps: seq<Step>)
    requires Plausible(cfg) && excess > 0.0 && Overdue(cfg, s, s.now + cfg.fence + cfg.watchdog - excess)
    ensures !Exclusive(Run(cfg, s, steps))
  {
    var wait := Wait(cfg, s, 0, if excess < cfg.fence then cfg.fence - excess else 0.0);
    var u := Run(cfg, s, wait);
    RunSnoc(cfg, s, wait, Tick(cfg.watchdog));
    assert MayPass(cfg, u, cfg.watchdog);
    var v := Run(cfg, s, wait + [Tick(cfg.watchdog)]);
    var task :| task in Live(s.workers[0]) && task.job == 0;
    TakenOver(cfg, v, task);
    RunConcat(cfg, s, wait + [Tick(cfg.watchdog)], TAKEOVER);
    steps := wait + [Tick(cfg.watchdog)] + TAKEOVER;
  }

  const CLAIMED_AGAIN := [BeatCommit(0), ClaimStart(0), ClaimCommit(0, {0})] + [ClaimApply(0)]

  /** Such a verdict is possible: a job reported while a heartbeat that names it is on its way is found
      lost, claimed again before that is known, and its new task cancelled although the row is its worker's. */
  lemma StaleVerdict(cfg: Config) returns (steps: seq<Step>)
    requires Plausible(cfg)
    ensures Stale(cfg, Run(cfg, START, steps))
  {
    AfterFirstClaim(cfg);
    RunConcat(cfg, START, FIRST_CLAIM, FIRST_TASK);
    AfterFirstTask(cfg, map[0 := Lease(0, cfg.lease)]);
    var s := Run(cfg, START, FIRST_CLAIM + FIRST_TASK);
    RunConcat(cfg, START, FIRST_CLAIM + FIRST_TASK, CLAIMED_AGAIN);
    RunThree(cfg, s, BeatCommit(0), ClaimStart(0), ClaimCommit(0, {0}));
    RunSnoc(cfg, s, [BeatCommit(0), ClaimStart(0), ClaimCommit(0, {0})], ClaimApply(0));
    steps := FIRST_CLAIM + FIRST_TASK + CLAIMED_AGAIN;
    IsStale(cfg, s.workers[0]);
  }

  /** The next confirmation cancels a task whose row is its worker's before and after. */
  predicate Stale(cfg: Config, s: State) {
    var next := Do(cfg, s, BeatApply(0));
    && OwnedBy(s, 0, 0) && OwnedBy(next, 0, 0) && FoundLost(s, 0, 0)
    && Runs(s, 0, Task(0, 1)) && !Runs(next, 0, Task(0, 1)) && 0 in next.workers && !next.workers[0].fenced
  }

  lemma IsStale(cfg: Config, wk: Worker)
    requires wk.claim.None? && !wk.fenced && wk.active == map[] && wk.running == {} && wk.beat == Some(Call(0.0, {0}, false, {}))
    requires wk.serial == 1
    ensures Stale(cfg, Do(cfg, Do(cfg, Do(cfg, Do(cfg, Solo(0.0, map[], wk), BeatCommit(0)), ClaimStart(0)), ClaimCommit(0, {0})), ClaimApply(0)))
  {
    FoundMissing(cfg, wk);
    var found := wk.(beat := Some(Call(0.0, {0}, true, {0})));
    ClaimTaken(cfg, 0.0, found);
    var s := Solo(0.0, map[0 := Lease(0, cfg.lease)], found.(claim := Some(Call(0.0, {0}, true, {}))));
    assert s.workers[0].claim.value.committed;
    var t := Do(cfg, s, ClaimApply(0));
    assert Runs(t, 0, Task(0, 1)) && t.workers[0].active[0] == 1 && t.workers[0].beat == found.beat;
  }

  lemma FoundMissing(cfg: Config, wk: Worker)
    requires wk.beat == Some(Call(0.0, {0}, false, {}))
    ensures Do(cfg, Solo(0.0, map[], wk), BeatCommit(0)) == Solo(0.0, map[], wk.(beat := Some(Call(0.0, {0}, true, {0}))))
  {
    var s := Solo(0.0, map[], wk);
    assert Lost(s, 0, wk.beat.value) == {0} && Beaten(cfg, s, 0, wk.beat.value) == map[];
  }

  const RECLAIM := [ClaimApply(0), Report(0, Task(0, 0))] + [ClaimStart(0), ClaimCommit(0, {0})] + [ClaimApply(0), Finish(0, Task(0, 0))]

  /** The end of a reported task drops the table's entry for its successor. */
  lemma AfterReclaim(cfg: Config, rows: map<Job, Lease>)
    requires cfg.reclaims && rows.Keys == {0} && rows[0].owner == 0
    ensures Run(cfg, Solo(0.0, rows, Worker(0.0, 0.0, false, map[], {}, {}, 0, Some(Call(0.0, {0}, true, {})), None)), RECLAIM)
         == Solo(0.0, map[0 := Lease(0, cfg.lease)], Worker(0.0, 0.0, false, map[], {Task(0, 1)}, {Task(0, 0)}, 2, None, None))
  {
    var s := Solo(0.0, rows, Worker(0.0, 0.0, false, map[], {}, {}, 0, Some(Call(0.0, {0}, true, {})), None));
    var first, second := [ClaimApply(0), Report(0, Task(0, 0))], [ClaimStart(0), ClaimCommit(0, {0})];
    RunConcat(cfg, s, first, second);
    RunTwo(cfg, s, ClaimApply(0), Report(0, Task(0, 0)));
    StartAndReport(cfg, rows);
    var t := Run(cfg, s, first);
    RunTwo(cfg, t, ClaimStart(0), ClaimCommit(0, {0}));
    ClaimBack(cfg, t.workers[0]);
    var u := Run(cfg, t, second);
    RunConcat(cfg, s, first + second, [ClaimApply(0), Finish(0, Task(0, 0))]);
    RunTwo(cfg, u, ClaimApply(0), Finish(0, Task(0, 0)));
    ReplaceAndFinish(cfg);
  }

  lemma ClaimBack(cfg: Config, wk: Worker)
    requires cfg.reclaims && wk.claim.None? && !wk.fenced
    ensures Do(cfg, Do(cfg, Solo(0.0, map[], wk), ClaimStart(0)), ClaimCommit(0, {0}))
         == Solo(0.0, map[0 := Lease(0, cfg.lease)], wk.(claim := Some(Call(0.0, {0}, true, {}))))
  {
    assert Do(cfg, Solo(0.0, map[], wk), ClaimStart(0)) == Solo(0.0, map[], wk.(claim := Some(Call(0.0, {}, false, {}))));
  }

  lemma StartAndReport(cfg: Config, rows: map<Job, Lease>)
    requires rows.Keys == {0} && rows[0].owner == 0
    ensures Do(cfg, Do(cfg, Solo(0.0, rows, Worker(0.0, 0.0, false, map[], {}, {}, 0, Some(Call(0.0, {0}, true, {})), None)),
                       ClaimApply(0)), Report(0, Task(0, 0)))
         == Solo(0.0, map[], Worker(0.0, 0.0, false, map[0 := 0], {Task(0, 0)}, {Task(0, 0)}, 1, None, None))
  {
    var wk := Worker(0.0, 0.0, false, map[], {}, {}, 0, Some(Call(0.0, {0}, true, {})), None);
    assert Started(wk, {0}).active == map[0 := 0] && Started(wk, {0}).running == {Task(0, 0)};
    assert rows - {0} == map[] && {} + {Task(0, 0)} == {Task(0, 0)};
  }

  lemma ReplaceAndFinish(cfg: Config)
    ensures Do(cfg, Do(cfg, Solo(0.0, map[0 := Lease(0, cfg.lease)],
                Worker(0.0, 0.0, false, map[0 := 0], {Task(0, 0)}, {Task(0, 0)}, 1, Some(Call(0.0, {0}, true, {})), None)),
                ClaimApply(0)), Finish(0, Task(0, 0)))
         == Solo(0.0, map[0 := Lease(0, cfg.lease)], Worker(0.0, 0.0, false, map[], {Task(0, 1)}, {Task(0, 0)}, 2, None, None))
  {
    var wk := Worker(0.0, 0.0, false, map[0 := 0], {Task(0, 0)}, {Task(0, 0)}, 1, Some(Call(0.0, {0}, true, {})), None);
    assert Started(wk, {0}).active == map[0 := 1] && Started(wk, {0}).running == {Task(0, 0), Task(0, 1)};
    assert map[0 := 1] - {0} == map[] && {Task(0, 0), Task(0, 1)} - {Task(0, 0)} == {Task(0, 1)};
  }

  /** A worker that gets a job back while it still tracks its last task for it loses sight of the new
      one: neither heartbeats nor the fence reach it, and the job runs twice, however much room there is. */
  lemma ReclaimIsUnsafe(cfg: Config) returns (steps: seq<Step>)
    requires Plausible(cfg) && cfg.reclaims
    ensures !Exclusive(Run(cfg, START, steps))
  {
    AfterFirstClaim(cfg);
    RunConcat(cfg, START, FIRST_CLAIM, RECLAIM);
    AfterReclaim(cfg, map[0 := Lease(0, cfg.lease)]);
    var s := Run(cfg, START, FIRST_CLAIM + RECLAIM);
    var wait := Wait(cfg, s, 0, cfg.lease);
    RunConcat(cfg, START, FIRST_CLAIM + RECLAIM, wait);
    TakenOver(cfg, Run(cfg, s, wait), Task(0, 1));
    RunConcat(cfg, START, FIRST_CLAIM + RECLAIM + wait, TAKEOVER);
    steps := FIRST_CLAIM + RECLAIM + wait + TAKEOVER;
  }

  /** For every bound on delays: no job ever runs twice exactly when the slack, the fence window and a
      watchdog step fit into the lease and the queue keeps a job from a worker that still tracks it. */
  lemma SafeExactlyWhen(cfg: Config)
    requires Plausible(cfg)
    ensures (Roomy(cfg) && !cfg.reclaims) <==> forall steps :: Exclusive(Run(cfg, START, steps))
  {
    if Roomy(cfg) && !cfg.reclaims {
      forall steps ensures Exclusive(Run(cfg, START, steps)) { SelfFencingIsSafe(cfg, steps); }
    } else if cfg.reclaims {
      var steps := ReclaimIsUnsafe(cfg);
    } else {
      var steps := RoomIsNeeded(cfg);
    }
  }
}
