/** Claiming for several queues from one set of slots: the round-robin pass of a worker, and why no
    queue starves. */
module ClaimRotation {
  import opened Common

  type Job = nat

  /** A job and the binding (the index of its queue) it was claimed through. */
  datatype Claimed = Claimed(binding: nat, job: Job)

  /** How the transaction of a pass ends: it commits, it commits after the worker was fenced, or it
      fails before the binding at this offset, or at the commit if there is none. */
  datatype Outcome = Commits | CommitsFenced | Fails(offset: nat)

  /** A pass so far: what the queues still hold, where the next pass begins, and what was claimed. */
  datatype Pass = Pass(queues: seq<seq<Job>>, next: nat, claimed: seq<Claimed>)

  function Tagged(binding: nat, jobs: seq<Job>): (r: seq<Claimed>)
    ensures |r| == |jobs| && forall i :: 0 <= i < |r| ==> r[i] == Claimed(binding, jobs[i])
  {
    seq(|jobs|, i requires 0 <= i < |jobs| => Claimed(binding, jobs[i]))
  }

  /** One visit: as many jobs of the binding as slots are left. */
  function Visit(pass: Pass, binding: nat, limit: nat): Pass
    requires binding < |pass.queues|
  {
    var queue := pass.queues[binding];
    var take := if limit - |pass.claimed| < |queue| then limit - |pass.claimed| else |queue|;
    if take <= 0 then pass
    else Pass(pass.queues[binding := queue[take..]], (binding + 1) % |pass.queues|, pass.claimed + Tagged(binding, queue[..take]))
  }

  /** The pass after the first `visits` bindings, counted from `start` round the ring. */
  function Scan(queues: seq<seq<Job>>, start: nat, limit: nat, visits: nat): (r: Pass)
    requires queues != []
    ensures |r.queues| == |queues|
  {
    if visits == 0 then Pass(queues, start, [])
    else Visit(Scan(queues, start, limit, visits - 1), (start + visits - 1) % |queues|, limit)
  }

  /** Steps round the ring from `from` to `to`. */
  function Distance(from: nat, to: nat, count: nat): nat
    requires from < count && to < count
  {
    if to >= from then to - from else to + count - from
  }

  // ---------------------------------------------------------------- what a pass does

  lemma {:induction false} ScanBounds(queues: seq<seq<Job>>, start: nat, limit: nat, visits: nat)
    requires start < |queues|
    ensures var r := Scan(queues, start, limit, visits); |r.claimed| <= limit && r.next < |queues|
  {
    if visits > 0 { ScanBounds(queues, start, limit, visits - 1); }
  }

  function Through(claimed: seq<Claimed>, binding: nat): seq<Job> {
    if claimed == [] then []
    else
      var last := claimed[|claimed| - 1];
      Through(claimed[..|claimed| - 1], binding) + if last.binding == binding then [last.job] else []
  }

  lemma {:induction false} ThroughTagged(claimed: seq<Claimed>, at: nat, jobs: seq<Job>, binding: nat)
    ensures Through(claimed + Tagged(at, jobs), binding)
         == Through(claimed, binding) + if at == binding then jobs else []
  {
    if jobs == [] {
      assert claimed + Tagged(at, jobs) == claimed;
    } else {
      var init := jobs[..|jobs| - 1];
      var all := claimed + Tagged(at, jobs);
      assert all[..|all| - 1] == claimed + Tagged(at, init);
      ThroughTagged(claimed, at, init, binding);
      assert at == binding ==> init + [jobs[|jobs| - 1]] == jobs;
    }
  }

  lemma VisitConserves(pass: Pass, at: nat, limit: nat, binding: nat)
    requires at < |pass.queues| && binding < |pass.queues|
    ensures var r := Visit(pass, at, limit);
            Through(r.claimed, binding) + r.queues[binding] == Through(pass.claimed, binding) + pass.queues[binding]
  {
    var queue := pass.queues[at];
    var take := if limit - |pass.claimed| < |queue| then limit - |pass.claimed| else |queue|;
    if take > 0 {
      ThroughTagged(pass.claimed, at, queue[..take], binding);
      assert queue[..take] + queue[take..] == queue;
      Regroup(Through(pass.claimed, binding), queue[..take], queue[take..]);
    }
  }

  /** Claiming moves jobs, it neither loses nor doubles them: what was claimed through a binding is
      the front of its queue, and the queue keeps the rest. */
  lemma {:induction false} ScanConserves(queues: seq<seq<Job>>, start: nat, limit: nat, visits: nat, binding: nat)
    requires binding < |queues|
    ensures var r := Scan(queues, start, limit, visits);
            Through(r.claimed, binding) + r.queues[binding] == queues[binding]
  {
    if visits > 0 {
      ScanConserves(queues, start, limit, visits - 1, binding);
      VisitConserves(Scan(queues, start, limit, visits - 1), (start + visits - 1) % |queues|, limit, binding);
    }
  }

  predicate Served(claimed: seq<Claimed>, binding: nat) { exists i :: 0 <= i < |claimed| && claimed[i].binding == binding }

  /** Before its turn a binding's queue is untouched, and the next pass begins no further than the
      last binding visited. */
  lemma {:induction false} BeforeItsTurn(queues: seq<seq<Job>>, start: nat, limit: nat, visits: nat, binding: nat)
    requires start < |queues| && binding < |queues| && visits <= Distance(start, binding, |queues|)
    ensures Untouched(queues, start, Scan(queues, start, limit, visits), visits, binding)
  {
    if visits > 0 {
      BeforeItsTurn(queues, start, limit, visits - 1, binding);
      VisitBefore(queues, start, Scan(queues, start, limit, visits - 1), limit, visits - 1, binding);
    }
  }

  predicate Untouched(queues: seq<seq<Job>>, start: nat, pass: Pass, visits: nat, binding: nat)
    requires start < |queues| && binding < |queues|
  {
    && |pass.queues| == |queues| && pass.queues[binding] == queues[binding]
    && pass.next < |queues| && Distance(start, pass.next, |queues|) <= visits
    && (pass.claimed != [] ==> 0 < Distance(start, pass.next, |queues|))
  }

  lemma VisitBefore(queues: seq<seq<Job>>, start: nat, pass: Pass, limit: nat, visits: nat, binding: nat)
    requires start < |queues| && binding < |queues| && visits < Distance(start, binding, |queues|)
    requires Untouched(queues, start, pass, visits, binding)
    ensures Untouched(queues, start, Visit(pass, (start + visits) % |queues|, limit), visits + 1, binding)
  {
    Turn(start, visits, |queues|);
    Wrap(start + visits, |queues|);
  }

  /** The binding after the one visited at an offset. */
  lemma Turn(start: nat, offset: nat, count: nat)
    requires start < count && offset + 1 < count
    ensures ((start + offset) % count + 1) % count < count
    ensures Distance(start, ((start + offset) % count + 1) % count, count) == offset + 1
  {
    Wrap(start + offset, count);
    Wrap((start + offset) % count + 1, count);
  }

  lemma Wrap(x: nat, count: nat)
    requires x < 2 * count
    ensures x % count == if x < count then x else x - count
  {
    if x >= count {
      assert x == count + (x - count);
      assert (x - count) / count == 0;
    }
  }

  lemma TurnOf(start: nat, binding: nat, count: nat)
    requires start < count && binding < count
    ensures (start + Distance(start, binding, count)) % count == binding
  {
    Wrap(start + Distance(start, binding, count), count);
  }

  lemma {:induction false} ClaimedStays(queues: seq<seq<Job>>, start: nat, limit: nat, visits: nat, more: nat)
    requires queues != [] && visits <= more
    ensures Scan(queues, start, limit, visits).claimed <= Scan(queues, start, limit, more).claimed
    decreases more
  {
    if visits < more { ClaimedStays(queues, start, limit, visits, more - 1); }
  }

  /** Once the limit is reached the rest of the round changes nothing, so the pass may stop there. */
  lemma {:induction false} FullPassStops(queues: seq<seq<Job>>, start: nat, limit: nat, visits: nat, more: nat)
    requires queues != [] && visits <= more && |Scan(queues, start, limit, visits).claimed| >= limit
    ensures Scan(queues, start, limit, more) == Scan(queues, start, limit, visits)
    decreases more
  {
    if visits < more { FullPassStops(queues, start, limit, visits, more - 1); }
  }

  /** One pass over a non-empty queue: it claims something, and either serves that queue or begins
      the next pass strictly closer to it. */
  lemma PassServesOrApproaches(queues: seq<seq<Job>>, start: nat, limit: nat, binding: nat)
    requires start < |queues| && binding < |queues| && queues[binding] != [] && limit >= 1
    ensures var r := Scan(queues, start, limit, |queues|);
            && r.claimed != [] && r.next < |queues|
            && (Served(r.claimed, binding)
                || Distance(r.next, binding, |queues|) < Distance(start, binding, |queues|))
  {
    var turn := Distance(start, binding, |queues|);
    var before := Scan(queues, start, limit, turn);
    BeforeItsTurn(queues, start, limit, turn, binding);
    if |before.claimed| >= limit {
      FullPassStops(queues, start, limit, turn, |queues|);
    } else {
      ServedOnItsTurn(queues, start, limit, binding);
    }
  }

  lemma ServedOnItsTurn(queues: seq<seq<Job>>, start: nat, limit: nat, binding: nat)
    requires start < |queues| && binding < |queues| && queues[binding] != []
    requires |Scan(queues, start, limit, Distance(start, binding, |queues|)).claimed| < limit
    ensures var r := Scan(queues, start, limit, |queues|); Served(r.claimed, binding) && r.next < |queues|
  {
    var turn := Distance(start, binding, |queues|);
    var before := Scan(queues, start, limit, turn);
    BeforeItsTurn(queues, start, limit, turn, binding);
    TurnOf(start, binding, |queues|);
    VisitServes(before, binding, limit);
    ClaimedStays(queues, start, limit, turn + 1, |queues|);
    assert Scan(queues, start, limit, |queues|).claimed[|before.claimed|].binding == binding;
    ScanBounds(queues, start, limit, |queues|);
  }

  lemma VisitServes(pass: Pass, binding: nat, limit: nat)
    requires binding < |pass.queues| && pass.queues[binding] != [] && |pass.claimed| < limit
    ensures var r := Visit(pass, binding, limit);
            |pass.claimed| < |r.claimed| && r.claimed[|pass.claimed|].binding == binding
  {
  }

  // ---------------------------------------------------------------- many passes

  /** How many bindings a pass visits before it ends as it does. */
  function VisitsOf(outcome: Outcome, count: nat): nat {
    if outcome.Fails? && outcome.offset < count then outcome.offset else count
  }

  /** What a pass meets: the queues as they are by then, and the free slots. */
  datatype Round = Round(queues: seq<seq<Job>>, limit: nat)

  /** One round per outcome, and in each of them the binding has work and a slot is free. */
  predicate Waiting(rounds: seq<Round>, outcomes: seq<Outcome>, count: nat, binding: nat)
    requires binding < count
  {
    |rounds| == |outcomes| && forall i :: 0 <= i < |rounds| ==>
      |rounds[i].queues| == count && rounds[i].queues[binding] != [] && rounds[i].limit >= 1
  }

  predicate Shaped(rounds: seq<Round>, outcomes: seq<Outcome>) {
    |rounds| == |outcomes| && forall i :: 0 <= i < |rounds| ==> rounds[i].queues != []
  }

  function RoundPass(round: Round, outcome: Outcome, start: nat): Pass
    requires round.queues != []
  {
    Scan(round.queues, start, round.limit, VisitsOf(outcome, |round.queues|))
  }

  /** Where the pass after the first `k` begins: every pass moves the rotation, however it ends. */
  function NextAfter(rounds: seq<Round>, outcomes: seq<Outcome>, start: nat, k: nat): nat
    requires Shaped(rounds, outcomes) && k <= |rounds|
  {
    if k == 0 then start
    else RoundPass(rounds[k - 1], outcomes[k - 1], NextAfter(rounds, outcomes, start, k - 1)).next
  }

  /** What pass `k` starts: nothing unless it commits. */
  function StartedBy(rounds: seq<Round>, outcomes: seq<Outcome>, start: nat, k: nat): seq<Claimed>
    requires Shaped(rounds, outcomes) && k < |rounds|
  {
    if outcomes[k].Commits? then RoundPass(rounds[k], outcomes[k], NextAfter(rounds, outcomes, start, k)).claimed else []
  }

  ghost predicate ServedBetween(rounds: seq<Round>, outcomes: seq<Outcome>, start: nat, from: nat, to: nat, binding: nat)
    requires Shaped(rounds, outcomes) && to <= |rounds|
  {
    exists i :: from <= i < to && Served(StartedBy(rounds, outcomes, start, i), binding)
  }

  /** The committed passes from `k` on before one that moves the rotation and starts nothing. A pass
      that fails before its first binding moves nothing. */
  function Streak(outcomes: seq<Outcome>, k: nat): nat
    requires k <= |outcomes|
    decreases |outcomes| - k
  {
    if k == |outcomes| then 0
    else match outcomes[k]
      case Commits => 1 + Streak(outcomes, k + 1)
      case CommitsFenced => 0
      case Fails(offset) => if offset == 0 then Streak(outcomes, k + 1) else 0
  }

  /** A streak at least as long as the distance reaches the binding. */
  lemma {:induction false} StreakServes(rounds: seq<Round>, outcomes: seq<Outcome>, start: nat, count: nat, binding: nat, k: nat)
    requires binding < count && Waiting(rounds, outcomes, count, binding) && k <= |rounds|
    requires NextAfter(rounds, outcomes, start, k) < count
    requires Distance(NextAfter(rounds, outcomes, start, k), binding, count) < Streak(outcomes, k)
    ensures ServedBetween(rounds, outcomes, start, k, |rounds|, binding)
    decreases |outcomes| - k
  {
    var from := NextAfter(rounds, outcomes, start, k);
    assert NextAfter(rounds, outcomes, start, k + 1) == RoundPass(rounds[k], outcomes[k], from).next;
    if outcomes[k].Commits? {
      PassServesOrApproaches(rounds[k].queues, from, rounds[k].limit, binding);
      if Served(StartedBy(rounds, outcomes, start, k), binding) { return; }
    }
    StreakServes(rounds, outcomes, start, count, binding, k + 1);
    var i :| k + 1 <= i < |rounds| && Served(StartedBy(rounds, outcomes, start, i), binding);
  }

  lemma {:induction false} NextInRange(rounds: seq<Round>, outcomes: seq<Outcome>, start: nat, count: nat, binding: nat, k: nat)
    requires start < count && binding < count && Waiting(rounds, outcomes, count, binding) && k <= |rounds|
    ensures NextAfter(rounds, outcomes, start, k) < count
  {
    if k > 0 {
      NextInRange(rounds, outcomes, start, count, binding, k - 1);
      ScanBounds(rounds[k - 1].queues, NextAfter(rounds, outcomes, start, k - 1), rounds[k - 1].limit, VisitsOf(outcomes[k - 1], count));
    }
  }

  /** No queue starves: whatever arrives at and leaves the other queues in between, a binding whose
      queue is never empty is served within as many committed passes as there are bindings. */
  lemma NoStarvation(rounds: seq<Round>, outcomes: seq<Outcome>, start: nat, count: nat, binding: nat, k: nat)
    requires start < count && binding < count && Waiting(rounds, outcomes, count, binding)
    requires k <= |outcomes| && Streak(outcomes, k) >= count
    ensures ServedBetween(rounds, outcomes, start, k, |rounds|, binding)
  {
    NextInRange(rounds, outcomes, start, count, binding, k);
    StreakServes(rounds, outcomes, start, count, binding, k);
  }

  // ---------------------------------------------------------------- passes that do not commit

  ghost predicate Serves(outcomes: seq<Outcome>, rounds: seq<Round>, start: nat, count: nat, binding: nat) {
    start < count && binding < count && Waiting(rounds, outcomes, count, binding) ==>
      ServedBetween(rounds, outcomes, start, 0, |rounds|, binding)
  }

  /** A binding that always has work is served, whatever the queues hold and wherever the rotation
      begins. */
  ghost predicate Guaranteed(outcomes: seq<Outcome>, count: nat, binding: nat) {
    forall rounds: seq<Round>, start: nat :: Serves(outcomes, rounds, start, count, binding)
  }

  ghost predicate LongStreak(outcomes: seq<Outcome>, count: nat) {
    exists k :: 0 <= k <= |outcomes| && Streak(outcomes, k) >= count
  }

  /** A pass that does not commit moves the rotation all the same. So service is guaranteed exactly
      when as many passes as there are bindings commit in a row, passes that fail before their first
      binding not counting. */
  lemma ServedExactlyWhen(outcomes: seq<Outcome>, count: nat, binding: nat)
    requires binding < count
    ensures Guaranteed(outcomes, count, binding) <==> LongStreak(outcomes, count)
  {
    if k :| 0 <= k <= |outcomes| && Streak(outcomes, k) >= count {
      forall rounds: seq<Round>, start: nat ensures Serves(outcomes, rounds, start, count, binding) {
        if start < count && Waiting(rounds, outcomes, count, binding) {
          NoStarvation(rounds, outcomes, start, count, binding, k);
          var i :| k <= i < |rounds| && Served(StartedBy(rounds, outcomes, start, i), binding);
        }
      }
    } else {
      var rounds, start := FailedPassesStarve(outcomes, count, binding);
      assert !Serves(outcomes, rounds, start, count, binding);
    }
  }

  /** The binding `steps` before another on the ring. */
  function Before(binding: nat, steps: nat, count: nat): nat
    requires binding < count && steps <= count
  {
    if steps <= binding then binding - steps else binding + count - steps
  }

  /** Queues in which only these two bindings have work. */
  function OnlyThese(a: nat, b: nat, count: nat): seq<seq<Job>> {
    seq(count, i => if i == a || i == b then [0] else [])
  }

  /** The history that starves a binding: a pass that is to commit meets work one before the place
      from which the rest of its streak ends just at the binding; any other finds work at the binding
      alone. */
  function Starving(outcomes: seq<Outcome>, k: nat, count: nat, binding: nat): Round
    requires k < |outcomes| && binding < count
  {
    var other := if outcomes[k].Commits? && Streak(outcomes, k + 1) + 1 <= count then Before(binding, Streak(outcomes, k + 1) + 1, count) else binding;
    Round(OnlyThese(binding, other, count), 1)
  }

  function StarvingRounds(outcomes: seq<Outcome>, count: nat, binding: nat): (r: seq<Round>)
    requires binding < count
    ensures Waiting(r, outcomes, count, binding)
  {
    seq(|outcomes|, k requires 0 <= k < |outcomes| => Starving(outcomes, k, count, binding))
  }

  /** Without a long streak, that history never serves the binding. */
  lemma FailedPassesStarve(outcomes: seq<Outcome>, count: nat, binding: nat) returns (rounds: seq<Round>, start: nat)
    requires binding < count && !LongStreak(outcomes, count)
    ensures start < count && Waiting(rounds, outcomes, count, binding)
    ensures !ServedBetween(rounds, outcomes, start, 0, |rounds|, binding)
  {
    rounds, start := StarvingRounds(outcomes, count, binding), Before(binding, count - 1, count);
    forall i | 0 <= i < |rounds| ensures !Served(StartedBy(rounds, outcomes, start, i), binding) {
      KeptAway(outcomes, count, binding, i);
      if outcomes[i].Commits? { StarvingPass(outcomes, NextAfter(rounds, outcomes, start, i), count, binding, i); }
    }
  }

  /** The rotation stands just behind the binding, or as far before it as the streak is long. */
  predicate OutOfReach(outcomes: seq<Outcome>, k: nat, next: nat, count: nat, binding: nat)
    requires binding < count && k <= |outcomes|
  {
    && next < count && Streak(outcomes, k) < count
    && (Distance(next, binding, count) == count - 1 || Distance(next, binding, count) == Streak(outcomes, k))
  }

  lemma {:induction false} KeptAway(outcomes: seq<Outcome>, count: nat, binding: nat, k: nat)
    requires binding < count && !LongStreak(outcomes, count) && k <= |outcomes|
    ensures OutOfReach(outcomes, k, NextAfter(StarvingRounds(outcomes, count, binding), outcomes, Before(binding, count - 1, count), k), count, binding)
  {
    assert Streak(outcomes, k) < count;
    if k > 0 {
      KeptAway(outcomes, count, binding, k - 1);
      var rounds, start := StarvingRounds(outcomes, count, binding), Before(binding, count - 1, count);
      StarvingPass(outcomes, NextAfter(rounds, outcomes, start, k - 1), count, binding, k - 1);
    }
  }

  /** One pass of that history. */
  lemma StarvingPass(outcomes: seq<Outcome>, next: nat, count: nat, binding: nat, k: nat)
    requires binding < count && k < |outcomes| && OutOfReach(outcomes, k, next, count, binding) && Streak(outcomes, k + 1) < count
    ensures var pass := RoundPass(Starving(outcomes, k, count, binding), outcomes[k], next);
            && OutOfReach(outcomes, k + 1, pass.next, count, binding)
            && (outcomes[k].Commits? ==> !Served(pass.claimed, binding))
  {
    var round := Starving(outcomes, k, count, binding);
    var visits := VisitsOf(outcomes[k], count);
    if outcomes[k].Commits? {
      var other := Before(binding, Streak(outcomes, k + 1) + 1, count);
      FirstWork(round.queues, next, other, count);
    } else if visits > Distance(next, binding, count) {
      FirstWork(round.queues, next, binding, visits);
    } else {
      NoWork(round.queues, next, visits);
    }
  }

  /** With one slot, a pass takes from the first binding with work, and the next begins behind it. */
  lemma FirstWork(queues: seq<seq<Job>>, start: nat, at: nat, visits: nat)
    requires start < |queues| && at < |queues| && queues[at] != []
    requires Distance(start, at, |queues|) < visits
    requires forall b :: 0 <= b < |queues| && Distance(start, b, |queues|) < Distance(start, at, |queues|) ==> queues[b] == []
    ensures var pass := Scan(queues, start, 1, visits);
            pass.claimed == [Claimed(at, queues[at][0])] && pass.next == (if at + 1 < |queues| then at + 1 else 0)
  {
    var turn := Distance(start, at, |queues|);
    NoWork(queues, start, turn);
    TurnOf(start, at, |queues|);
    Wrap(at + 1, |queues|);
    assert queues[at][..1] == [queues[at][0]];
    assert Scan(queues, start, 1, turn + 1).claimed == [] + Tagged(at, [queues[at][0]]);
    FullPassStops(queues, start, 1, turn + 1, visits);
  }

  /** A pass over empty queues leaves the rotation where it is. */
  lemma {:induction false} NoWork(queues: seq<seq<Job>>, start: nat, visits: nat)
    requires start < |queues| && visits <= |queues|
    requires forall b :: 0 <= b < |queues| && Distance(start, b, |queues|) < visits ==> queues[b] == []
    ensures Scan(queues, start, 1, visits) == Pass(queues, start, [])
  {
    if visits > 0 {
      NoWork(queues, start, visits - 1);
      Wrap(start + visits - 1, |queues|);
    }
  }

  // ---------------------------------------------------------------- the claimer

  class Claimer {
    var next: nat
    var queues: seq<seq<Job>>
    var active: seq<Claimed>
    var fenced: bool

    ghost predicate Valid() reads this { next < |queues| }

    constructor (queues: seq<seq<Job>>)
      requires queues != []
      ensures Valid() && next == 0 && this.queues == queues && active == [] && !fenced
    {
      this.queues := queues;
      next := 0;
      active := [];
      fenced := false;
    }

    /** The visits of one pass, in one transaction; only the rotation changes before its end. */
    method VisitAll(limit: nat, stop: nat) returns (taken: seq<seq<Job>>, claimed: seq<Claimed>)
      requires Valid()
      modifies this`next
      ensures Valid() && Pass(taken, next, claimed) == Scan(queues, old(next), limit, stop)
    {
      ghost var first := next;
      var count, start, offset := |queues|, next, 0;
      taken, claimed := queues, [];
      while offset < stop && |claimed| < limit
        invariant offset <= stop && |taken| == count && next < count
        invariant Pass(taken, next, claimed) == Scan(queues, first, limit, offset)
      {
        var index := (start + offset) % count;
        var remaining := limit - |claimed|;
        var got := if remaining < |taken[index]| then taken[index][..remaining] else taken[index];
        if got != [] {
          next := (index + 1) % count;
          claimed := claimed + Tagged(index, got);
          taken := taken[index := taken[index][|got|..]];
        }
        offset := offset + 1;
      }
      if offset < stop { FullPassStops(queues, first, limit, offset, stop); }
    }

    /** One pass for up to `limit` jobs. A failed pass gives its jobs back to the queues, a pass that
        commits under the fence starts nothing; both leave the rotation where the visits took it. */
    method Claim(limit: nat, allowed: bool, outcome: Outcome) returns (started: nat)
      requires Valid()
      modifies this
      ensures Valid() && |queues| == |old(queues)|
      ensures !allowed ==> started == 0 && queues == old(queues) && next == old(next) && active == old(active) && fenced == old(fenced)
      ensures allowed ==>
        var pass := Scan(old(queues), old(next), limit, VisitsOf(outcome, |old(queues)|));
        && next == pass.next
        && queues == (if outcome.Fails? then old(queues) else pass.queues)
        && active == old(active) + (if outcome.Commits? && !old(fenced) then pass.claimed else [])
        && fenced == (old(fenced) || outcome.CommitsFenced?)
      ensures started == |active| - |old(active)| <= limit
    {
      started := 0;
      if !allowed { return; }
      var stop := VisitsOf(outcome, |queues|);
      ScanBounds(queues, next, limit, stop);
      var taken, claimed := VisitAll(limit, stop);
      if outcome.Fails? { return; }
      queues := taken;
      if outcome.CommitsFenced? { fenced := true; }
      if fenced { return; }
      active := active + claimed;
      started := |claimed|;
    }

    /** One turn of the claim loop: never more tasks than there are slots. */
    method ClaimForFreeSlots(slots: nat, batch: nat, outcome: Outcome) returns (started: nat)
      requires Valid()
      modifies this
      ensures Valid()
      ensures |active| == |old(active)| + started && started <= batch
      ensures |old(active)| <= slots ==> |active| <= slots
      ensures |old(active)| >= slots ==> started == 0 && next == old(next) && queues == old(queues)
      ensures old(active) <= active
    {
      started := 0;
      if slots > |active| && !fenced {
        started := Claim(if slots - |active| < batch then slots - |active| else batch, true, outcome);
      }
    }

    /** The claim loop, one pass a turn. Between turns the queues change, tasks end, and a fence is
        lifted: each turn meets its own round. */
    method ClaimLoop(rounds: seq<Round>, outcomes: seq<Outcome>) returns (starts: seq<seq<Claimed>>)
      requires Valid() && |rounds| == |outcomes| && forall i :: 0 <= i < |rounds| ==> |rounds[i].queues| == |queues|
      modifies this
      ensures Valid() && |starts| == |rounds| && Shaped(rounds, outcomes)
      ensures next == NextAfter(rounds, outcomes, old(next), |rounds|)
      ensures forall i :: 0 <= i < |rounds| ==> starts[i] == StartedBy(rounds, outcomes, old(next), i)
    {
      starts := [];
      for k := 0 to |rounds|
        invariant Valid() && |starts| == k && |queues| == |old(queues)|
        invariant next == NextAfter(rounds, outcomes, old(next), k)
        invariant forall i :: 0 <= i < k ==> starts[i] == StartedBy(rounds, outcomes, old(next), i)
      {
        queues, fenced, active := rounds[k].queues, false, [];
        var started := Claim(rounds[k].limit, true, outcomes[k]);
        starts := starts + [active];
      }
    }
  }
}
