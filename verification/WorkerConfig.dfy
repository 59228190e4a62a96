/** The worker's settings: what is checked, what the fence and its watchdog are derived from, and how
    much delay they leave room for. */
module WorkerConfig {
  import opened Common
  import WorkerLease

  const MISSED_BEATS_BUDGET := 3.0
  const FENCE_RATIO := 0.5
  const WATCHDOG_STEPS := 4.0
  const HEARTBEAT_BUDGET_RATIO := 2.0
  const WATCHDOG_FLOOR := 0.01

  datatype Settings = Settings(leaseSeconds: int, heartbeatSeconds: real, fenceAfterSeconds: Option<real>) {
    /** The checks on lease, heartbeat and fence window. */
    predicate Accepted() {
      && leaseSeconds >= 1
      && heartbeatSeconds * MISSED_BEATS_BUDGET <= leaseSeconds as real
      && (fenceAfterSeconds.Some? ==> 0.0 < fenceAfterSeconds.value <= leaseSeconds as real)
    }

    function FenceAfter(): real {
      if fenceAfterSeconds.Some? then fenceAfterSeconds.value else leaseSeconds as real * FENCE_RATIO
    }

    function WatchdogInterval(): real {
      var step := if FenceAfter() / WATCHDOG_STEPS < heartbeatSeconds then FenceAfter() / WATCHDOG_STEPS else heartbeatSeconds;
      if step > WATCHDOG_FLOOR then step else WATCHDOG_FLOOR
    }

    function HeartbeatTickBudget(): real { FenceAfter() * HEARTBEAT_BUDGET_RATIO }

    /** The lease protocol under these settings, for a bound on delays and a queue of either kind. */
    function Protocol(delay: real, keepsLater: bool, reclaims: bool): WorkerLease.Config {
      WorkerLease.Config(leaseSeconds as real, FenceAfter(), WatchdogInterval(), delay, keepsLater, reclaims)
    }
  }

  /** Accepted settings always make a plausible protocol, and delays within a third of what the fence
      window and the watchdog leave of the lease are safe in every run, on either kind of queue. */
  lemma ToleratedDelay(settings: Settings, delay: real, keepsLater: bool, steps: seq<WorkerLease.Step>)
    requires settings.Accepted() && delay >= 0.0
    requires 3.0 * delay <= settings.leaseSeconds as real - settings.FenceAfter() - settings.WatchdogInterval()
    ensures WorkerLease.Exclusive(WorkerLease.Run(settings.Protocol(delay, keepsLater, false), WorkerLease.START, steps))
    ensures WorkerLease.LeaseHeld(WorkerLease.Run(settings.Protocol(delay, keepsLater, false), WorkerLease.START, steps))
  {
    WorkerLease.SelfFencingIsSafe(settings.Protocol(delay, keepsLater, false), steps);
  }

  /** Exactly which delays are safe under accepted settings, however long they are. */
  lemma SettingsSafeExactlyWhen(settings: Settings, delay: real, keepsLater: bool)
    requires settings.Accepted() && delay >= 0.0
    ensures var cfg := settings.Protocol(delay, keepsLater, false);
            (forall steps :: WorkerLease.Exclusive(WorkerLease.Run(cfg, WorkerLease.START, steps))) <==>
              var window := settings.FenceAfter() + settings.WatchdogInterval();
              var age := if delay < window then delay else window;
              delay + (if keepsLater then age else 2.0 * age) + window <= settings.leaseSeconds as real
  {
    WorkerLease.SafeExactlyWhen(settings.Protocol(delay, keepsLater, false));
  }

  /** With the fence window left at half the lease, every delay up to an eighth of the lease is safe. */
  lemma DefaultTolerance(settings: Settings, delay: real, keepsLater: bool, steps: seq<WorkerLease.Step>)
    requires settings.Accepted() && settings.fenceAfterSeconds.None?
    requires 0.0 <= delay <= settings.leaseSeconds as real / 8.0
    ensures WorkerLease.Exclusive(WorkerLease.Run(settings.Protocol(delay, keepsLater, false), WorkerLease.START, steps))
  {
    assert settings.WatchdogInterval() <= settings.leaseSeconds as real / 8.0;
    ToleratedDelay(settings, delay, keepsLater, steps);
  }

  /** The checks do not imply the inequality: a fence window as long as the lease is accepted, and
      then some run executes a job twice even if nothing is ever delayed. */
  lemma ChecksAreNotEnough(settings: Settings, keepsLater: bool) returns (steps: seq<WorkerLease.Step>)
    requires settings.Accepted() && settings.fenceAfterSeconds == Some(settings.leaseSeconds as real)
    ensures !WorkerLease.Exclusive(WorkerLease.Run(settings.Protocol(0.0, keepsLater, false), WorkerLease.START, steps))
  {
    steps := WorkerLease.RoomIsNeeded(settings.Protocol(0.0, keepsLater, false));
  }

  /** The watchdog fences before a hung heartbeat runs out of its budget exactly when the fence window
      is at least the watchdog's shortest step. */
  lemma WatchdogBeatsTheBudget(settings: Settings)
    requires settings.Accepted()
    ensures settings.FenceAfter() + settings.WatchdogInterval() <= settings.HeartbeatTickBudget()
      <==> settings.FenceAfter() >= WATCHDOG_FLOOR
  {
  }
}
