/** Reversible entity resolution: the decisions in force, replayed in time order, make the groups. */
module Resolution {
  import opened Common
  import opened Sorting
  import opened Supersession

  type Pair = (Id, Id)

  /** Where a replay stands: the group of every grouped entity, the blocked pairs, and the decisions
      applied and skipped so far. */
  datatype Replayed = Replayed(membership: map<Id, Id>, blocked: set<Pair>, applied: seq<Id>, skipped: seq<Id>)

  const NOTHING := Replayed(map[], {}, [], [])

  function GroupMembers(m: map<Id, Id>, group: Id): set<Id> { set e | e in m && m[e] == group }

  predicate SharesGroup(m: map<Id, Id>, members: set<Id>, e: Id) {
    e in m && exists x :: x in members && x in m && m[x] == m[e]
  }

  /** The members of a decision with everybody in their present groups. */
  function Affected(m: map<Id, Id>, members: set<Id>): set<Id> {
    members + set e | e in m && SharesGroup(m, members, e)
  }

  function Pairs(ids: set<Id>): set<Pair> { set a, b | a in ids && b in ids && a < b :: (a, b) }

  predicate Within(p: Pair, s: set<Id>) { p.0 in s && p.1 in s }

  predicate HoldsBlockedPair(blocked: set<Pair>, s: set<Id>) { exists p :: p in blocked && Within(p, s) }

  function Moved(m: map<Id, Id>, s: set<Id>, group: Id): map<Id, Id> { m + map e | e in s :: group }

  function Skipped(st: Replayed, d: Decision): Replayed { st.(skipped := st.skipped + [d.id]) }

  function Applied(st: Replayed, d: Decision): Replayed { st.(applied := st.applied + [d.id]) }

  /** One decision: a group action moves all it affects unless it is an automatic merge of a blocked
      pair, a block adds its pairs, an unmerge takes its members out, a rejection changes nothing. */
  function After(st: Replayed, d: Decision): Replayed {
    match d.action
    case Merge(group) =>
      if HoldsBlockedPair(st.blocked, Affected(st.membership, d.members)) then Skipped(st, d)
      else Applied(st.(membership := Moved(st.membership, Affected(st.membership, d.members), group)), d)
    case ManualLink(group) =>
      Applied(st.(membership := Moved(st.membership, Affected(st.membership, d.members), group)), d)
    case ManualBlock => Applied(st.(blocked := st.blocked + Pairs(d.members)), d)
    case Unmerge => Applied(st.(membership := st.membership - d.members), d)
    case Reject => Applied(st, d)
  }

  function Replay(decisions: seq<Decision>): Replayed {
    if decisions == [] then NOTHING else After(Replay(decisions[..|decisions| - 1]), decisions[|decisions| - 1])
  }

  // ---------------------------------------------------------------- the two indexes of the groups

  /** `groups` is exactly the inverse of `m`, and holds no empty group. */
  predicate Inverse(m: map<Id, Id>, groups: map<Id, set<Id>>) {
    && (forall g :: g in groups ==> groups[g] != {} && groups[g] == GroupMembers(m, g))
    && (forall e :: e in m ==> m[e] in groups)
  }

  /** Exact inverses make a partition: every grouped entity in one group, no two groups overlapping. */
  lemma InverseIsPartition(m: map<Id, Id>, groups: map<Id, set<Id>>)
    requires Inverse(m, groups)
    ensures forall e, g :: g in groups && e in groups[g] <==> e in m && m[e] == g
    ensures forall g, h :: g in groups && h in groups && g != h ==> groups[g] !! groups[h]
  {
    forall e, g ensures g in groups && e in groups[g] <==> e in m && m[e] == g {
      if g in groups { assert e in groups[g] <==> e in GroupMembers(m, g); }
    }
    forall g, h | g in groups && h in groups && g != h ensures groups[g] !! groups[h] {
      forall e | e in groups[g] ensures e !in groups[h] {
        assert e in GroupMembers(m, g);
      }
    }
  }

  class Registry {
    var membership: map<Id, Id>
    var groups: map<Id, set<Id>>
    var blocked: set<Pair>
    var applied: seq<Id>
    var skipped: seq<Id>

    ghost predicate Valid() reads this`membership, this`groups { Inverse(membership, groups) }

    ghost function State(): Replayed reads this { Replayed(membership, blocked, applied, skipped) }

    constructor ()
      ensures Valid() && State() == NOTHING
    {
      membership, groups, blocked, applied, skipped := map[], map[], {}, [], [];
    }

    /** Takes an entity out of its group; entities in `moving` are between two groups. */
    method Leave(entity: Id, ghost moving: set<Id>)
      requires Inverse(membership - moving, groups) && entity !in moving
      modifies this`membership, this`groups
      ensures membership == old(membership) - {entity}
      ensures Inverse(membership - moving, groups)
    {
      if entity in membership {
        ghost var m := membership - moving;
        var group := membership[entity];
        assert entity in m && m[entity] == group;
        membership := membership - {entity};
        var left := groups[group] - {entity};
        groups := if left == {} then groups - {group} else groups[group := left];
        LeaveKeepsInverse(m, old(groups), entity);
        assert membership - moving == m - {entity};
      } else {
        assert membership - {entity} == membership;
      }
    }

    method GatherAffected(members: set<Id>) returns (affected: set<Id>)
      requires Valid()
      ensures affected == Affected(membership, members)
    {
      affected := members;
      var todo := members;
      while todo != {}
        invariant todo <= members
        invariant affected == members + set e | e in membership && SharesGroup(membership, members - todo, e)
        decreases todo
      {
        var member :| member in todo;
        ghost var before := members - todo;
        todo := todo - {member};
        assert members - todo == before + {member};
        if member in membership {
          ghost var had := affected;
          affected := affected + groups[membership[member]];
          SharedBy(membership, before, member);
        }
      }
      assert members - todo == members;
    }

    method MoveOne(entity: Id, group: Id, ghost moving: set<Id>)
      requires Inverse(membership - moving, groups) && entity !in moving
      modifies this`membership, this`groups
      ensures membership == old(membership)[entity := group]
      ensures Inverse(membership - (moving + {entity}), groups)
    {
      Leave(entity, moving);
      assert membership[entity := group] - (moving + {entity}) == membership - moving;
      membership := membership[entity := group];
    }

    method MoveAll(affected: set<Id>, group: Id)
      requires Valid() && affected != {}
      modifies this`membership, this`groups
      ensures Valid() && membership == Moved(old(membership), affected, group)
    {
      ghost var m := membership;
      var todo := affected;
      assert affected - todo == {};
      assert membership - {} == membership && Moved(m, {}, group) == m;
      while todo != {}
        invariant todo <= affected
        invariant membership == Moved(m, affected - todo, group)
        invariant Inverse(membership - (affected - todo), groups)
        decreases todo
      {
        var entity :| entity in todo;
        ghost var moving := affected - todo;
        MoveOne(entity, group, moving);
        todo := todo - {entity};
        assert affected - todo == moving + {entity};
        MovedOneMore(m, moving, entity, group);
      }
      assert affected - todo == affected;
      JoinKeepsInverse(membership, groups, affected, group);
      groups := groups[group := (if group in groups then groups[group] else {}) + affected];
    }

    /** One decision of the replay. */
    method Apply(d: Decision)
      requires Valid() && d.members != {}
      modifies this
      ensures Valid() && State() == After(old(State()), d)
    {
      match d.action {
        case Merge(group) =>
          var affected := GatherAffected(d.members);
          if HoldsBlockedPair(blocked, affected) {
            skipped := skipped + [d.id];
            return;
          }
          MoveAll(affected, group);
        case ManualLink(group) =>
          var affected := GatherAffected(d.members);
          MoveAll(affected, group);
        case ManualBlock => blocked := blocked + Pairs(d.members);
        case Unmerge => LeaveAll(d.members);
        case Reject =>
      }
      applied := applied + [d.id];
    }

    method LeaveAll(members: set<Id>)
      requires Valid()
      modifies this`membership, this`groups
      ensures Valid() && membership == old(membership) - members
    {
      ghost var m := membership;
      var todo := members;
      assert m - (members - todo) == m;
      while todo != {}
        invariant todo <= members && Valid() && membership == m - (members - todo)
        decreases todo
      {
        var entity :| entity in todo;
        assert membership - {} == membership;
        Leave(entity, {});
        assert membership - {} == membership;
        todo := todo - {entity};
        assert membership == m - (members - todo);
      }
      assert members - todo == members;
    }
  }

  lemma MovedOneMore(m: map<Id, Id>, moving: set<Id>, entity: Id, group: Id)
    ensures Moved(m, moving, group)[entity := group] == Moved(m, moving + {entity}, group)
  {
  }

  lemma JoinKeepsInverse(m: map<Id, Id>, groups: map<Id, set<Id>>, affected: set<Id>, group: Id)
    requires Inverse(m - affected, groups) && affected != {}
    requires forall e :: e in affected ==> e in m && m[e] == group
    ensures Inverse(m, groups[group := (if group in groups then groups[group] else {}) + affected])
  {
    var rest := m - affected;
    var joined := (if group in groups then groups[group] else {}) + affected;
    forall e ensures e in joined <==> e in GroupMembers(m, group) {
      if e in rest && rest[e] == group { assert e in GroupMembers(rest, group); }
      assert group in groups ==> (e in groups[group] <==> e in GroupMembers(rest, group));
    }
    forall g | g in groups && g != group ensures groups[g] == GroupMembers(m, g) {
      forall e ensures e in GroupMembers(rest, g) <==> e in GroupMembers(m, g) {}
    }
    forall e | e in m ensures m[e] == group || m[e] in groups {
      assert e in rest || e in affected;
    }
  }

  lemma LeaveKeepsInverse(m: map<Id, Id>, groups: map<Id, set<Id>>, entity: Id)
    requires Inverse(m, groups) && entity in m
    ensures var left := groups[m[entity]] - {entity};
            Inverse(m - {entity}, if left == {} then groups - {m[entity]} else groups[m[entity] := left])
  {
    var group := m[entity];
    var left := groups[group] - {entity};
    var rest := m - {entity};
    assert left == GroupMembers(rest, group);
    forall g | g in groups && g != group ensures groups[g] == GroupMembers(rest, g) {
      assert GroupMembers(rest, g) == GroupMembers(m, g);
    }
    forall e | e in rest ensures rest[e] in groups && (rest[e] == group ==> left != {}) {
      assert rest[e] == group ==> e in left;
    }
  }

  lemma SharedBy(m: map<Id, Id>, before: set<Id>, member: Id)
    requires member in m
    ensures (set e | e in m && SharesGroup(m, before + {member}, e))
         == (set e | e in m && SharesGroup(m, before, e)) + GroupMembers(m, m[member])
  {
    forall e | e in m ensures SharesGroup(m, before + {member}, e) <==> SharesGroup(m, before, e) || m[e] == m[member] {
      if m[e] == m[member] { assert member in before + {member}; }
      if SharesGroup(m, before, e) {
        var x :| x in before && x in m && m[x] == m[e];
        assert x in before + {member};
      }
    }
  }

  // ---------------------------------------------------------------- what a decision does and does not do

  /** Only the affected and the unmerged move. */
  lemma OnlyAffectedMove(st: Replayed, d: Decision, e: Id)
    requires e !in Affected(st.membership, d.members)
    ensures e in After(st, d).membership <==> e in st.membership
    ensures e in st.membership ==> After(st, d).membership[e] == st.membership[e]
  {
  }

  /** Whole groups move: after a group action two entities that shared a group still share one. */
  lemma GroupsMoveWhole(st: Replayed, d: Decision, a: Id, b: Id)
    requires !d.action.Unmerge?
    requires a in st.membership && b in st.membership && st.membership[a] == st.membership[b]
    ensures var m := After(st, d).membership; a in m && b in m && m[a] == m[b]
  {
    var affected := Affected(st.membership, d.members);
    assert a in affected <==> b in affected by {
      if a in d.members { assert SharesGroup(st.membership, d.members, b); }
      if b in d.members { assert SharesGroup(st.membership, d.members, a); }
    }
  }

  /** The group a merge results in is the canonical group's old members with the affected ones. */
  lemma ResultingGroup(st: Replayed, d: Decision)
    requires d.action.Merge? && After(st, d).applied != st.applied
    ensures GroupMembers(After(st, d).membership, d.action.group)
         == GroupMembers(st.membership, d.action.group) + Affected(st.membership, d.members)
    ensures !HoldsBlockedPair(st.blocked, Affected(st.membership, d.members))
  {
  }

  /** An applied merge leaves a blocked pair in its group exactly when the pair involves an old member
      of the canonical group that the merge did not affect. So it leaves none when that group was
      empty or affected itself. */
  lemma MergeRespectsBlocksExactlyWhen(st: Replayed, d: Decision)
    requires d.action.Merge? && After(st, d).applied != st.applied
    ensures var present, affected := GroupMembers(st.membership, d.action.group), Affected(st.membership, d.members);
            HoldsBlockedPair(st.blocked, GroupMembers(After(st, d).membership, d.action.group)) <==>
              exists p :: p in st.blocked && Within(p, present + affected) && (p.0 in present - affected || p.1 in present - affected)
    ensures GroupMembers(st.membership, d.action.group) <= Affected(st.membership, d.members) ==>
      !HoldsBlockedPair(st.blocked, GroupMembers(After(st, d).membership, d.action.group))
  {
    ResultingGroup(st, d);
  }

  /** The check looks at the affected entities only: a merge into a group it does not touch is applied
      although the resulting group holds a blocked pair. */
  lemma MergeIntoBlockedGroup()
    ensures var st := Replayed(map[1 := 7, 2 := 7], {(1, 3)}, [], []);
            var d := Decision(0, 1, Merge(7), {3, 4}, None, 0, 0);
            After(st, d).applied == [0] && HoldsBlockedPair(st.blocked, GroupMembers(After(st, d).membership, 7))
  {
    var st := Replayed(map[1 := 7, 2 := 7], {(1, 3)}, [], []);
    var d := Decision(0, 1, Merge(7), {3, 4}, None, 0, 0);
    assert Affected(st.membership, d.members) == {3, 4};
    assert !HoldsBlockedPair(st.blocked, {3, 4});
    assert Within((1, 3), GroupMembers(After(st, d).membership, 7));
  }

  /** Blocks are kept for good, and every decision is either applied or skipped, only merges skipped. */
  lemma {:induction false} EveryDecisionCounted(decisions: seq<Decision>)
    ensures |Replay(decisions).applied| + |Replay(decisions).skipped| == |decisions|
    ensures forall d :: d in decisions ==> d.id in Replay(decisions).applied || d.id in Replay(decisions).skipped
    ensures forall d :: d in decisions && d.action.ManualBlock? ==> Pairs(d.members) <= Replay(decisions).blocked
  {
    if decisions != [] {
      var init, last := decisions[..|decisions| - 1], decisions[|decisions| - 1];
      EveryDecisionCounted(init);
      forall d | d in decisions
        ensures d.id in Replay(decisions).applied || d.id in Replay(decisions).skipped
        ensures d.action.ManualBlock? ==> Pairs(d.members) <= Replay(decisions).blocked
      {
        assert d in init || d == last;
      }
    }
  }

  /** The decision adds itself to those applied. */
  predicate Takes(st: Replayed, d: Decision) { After(st, d).applied != st.applied }

  /** A group action gathers its members and everybody who shares a group with one of them in its group. */
  lemma GroupActionGathers(st: Replayed, d: Decision, e: Id)
    requires d.action.ManualLink? || (d.action.Merge? && Takes(st, d))
    requires e in d.members || (e in st.membership && exists x :: x in d.members && x in st.membership && st.membership[x] == st.membership[e])
    ensures e in After(st, d).membership && After(st, d).membership[e] == d.action.group
  {
  }

  /** The decision at `k` put the entity into a group. */
  predicate PutIn(decisions: seq<Decision>, e: Id, k: nat) {
    && k < |decisions| && Takes(Replay(decisions[..k]), decisions[k])
    && (decisions[k].action.Merge? || decisions[k].action.ManualLink?) && e in decisions[k].members
  }

  predicate TakesOut(d: Decision, e: Id) { d.action.Unmerge? && e in d.members }

  predicate PutLast(decisions: seq<Decision>, e: Id, k: nat) {
    PutIn(decisions, e, k) && forall j :: k < j < |decisions| ==> !TakesOut(decisions[j], e)
  }

  lemma PutInEarlier(before: seq<Decision>, d: Decision, e: Id, k: nat)
    requires k < |before|
    ensures PutIn(before + [d], e, k) <==> PutIn(before, e, k)
  {
    assert (before + [d])[..k] == before[..k];
  }

  lemma PutLastEarlier(before: seq<Decision>, d: Decision, e: Id, k: nat)
    requires k < |before|
    ensures PutLast(before + [d], e, k) <==> PutLast(before, e, k) && !TakesOut(d, e)
  {
    var all := before + [d];
    PutInEarlier(before, d, e, k);
    assert all[|before|] == d && forall j :: 0 <= j < |before| ==> all[j] == before[j];
  }

  lemma PutLastNow(before: seq<Decision>, d: Decision, e: Id)
    ensures PutLast(before + [d], e, |before|) <==>
      Takes(Replay(before), d) && (d.action.Merge? || d.action.ManualLink?) && e in d.members
  {
    assert (before + [d])[..|before|] == before;
  }

  /** One decision groups exactly the entities it puts in, and those that were grouped and are not taken out. */
  lemma GroupedAfter(st: Replayed, d: Decision, e: Id)
    ensures e in After(st, d).membership <==>
      || (Takes(st, d) && (d.action.Merge? || d.action.ManualLink?) && e in d.members)
      || (e in st.membership && !TakesOut(d, e))
  {
  }

  lemma GroupedByLast(before: seq<Decision>, d: Decision, e: Id)
    requires e in Replay(before).membership <==> exists k: nat :: PutLast(before, e, k)
    ensures e in After(Replay(before), d).membership <==> exists k: nat :: PutLast(before + [d], e, k)
  {
    GroupedAfter(Replay(before), d, e);
    PutLastNow(before, d, e);
    if k: nat :| PutLast(before, e, k) { PutLastEarlier(before, d, e, k); }
    if k: nat :| PutLast(before + [d], e, k) && k < |before| { PutLastEarlier(before, d, e, k); }
  }

  /** An entity is in a group exactly when an applied merge or a manual link named it and no unmerge has
      named it since. */
  lemma {:induction false} GroupedExactlyWhen(decisions: seq<Decision>, e: Id)
    ensures e in Replay(decisions).membership <==> exists k: nat :: PutLast(decisions, e, k)
  {
    if decisions != [] {
      var before, d := decisions[..|decisions| - 1], decisions[|decisions| - 1];
      assert decisions == before + [d];
      GroupedExactlyWhen(before, e);
      GroupedByLast(before, d, e);
    }
  }

  /** A pair is blocked exactly when some manual block names both its entities, smaller id first. */
  lemma {:induction false} BlockedExactlyWhen(decisions: seq<Decision>, a: Id, b: Id)
    ensures (a, b) in Replay(decisions).blocked <==>
      a < b && exists k :: 0 <= k < |decisions| && decisions[k].action.ManualBlock? && a in decisions[k].members && b in decisions[k].members
  {
    if decisions != [] {
      var before, d := decisions[..|decisions| - 1], decisions[|decisions| - 1];
      BlockedExactlyWhen(before, a, b);
      assert forall k :: 0 <= k < |before| ==> decisions[k] == before[k];
      assert decisions[|before|] == d;
    }
  }

  // ---------------------------------------------------------------- the snapshot

  function IdLeq(a: Id, b: Id): bool { a <= b }

  function PairLeq(p: Pair, q: Pair): bool { p.0 < q.0 || (p.0 == q.0 && p.1 <= q.1) }

  /** By effective time, recording time, version and id. */
  function ReplayLeq(a: Decision, b: Decision): bool {
    if a.effectiveAt != b.effectiveAt then a.effectiveAt < b.effectiveAt
    else if a.recordedAt != b.recordedAt then a.recordedAt < b.recordedAt
    else if a.version != b.version then a.version < b.version
    else a.id <= b.id
  }

  ghost predicate DistinctIds(s: set<Decision>) { forall d, e :: d in s && e in s && d.id == e.id ==> d == e }

  lemma ReplayLeqOrders(s: set<Decision>)
    requires DistinctIds(s)
    ensures Orders(ReplayLeq, s)
  {
  }

  datatype Group = Group(id: Id, members: seq<Id>)

  datatype Snapshot = Snapshot(groups: seq<Group>, blocked: seq<Pair>, applied: seq<Id>, skipped: seq<Id>, superseded: seq<Id>)

  function LargeGroups(m: map<Id, Id>): set<Id> { set e | e in m && |GroupMembers(m, m[e])| >= 2 :: m[e] }

  /** Groups of two and more in ascending order of their ids, their members in ascending order. */
  ghost predicate ListsGroups(list: seq<Group>, m: map<Id, Id>) {
    Lists(list, m, Sort(IdLeq, LargeGroups(m)))
  }

  ghost predicate Lists(list: seq<Group>, m: map<Id, Id>, ids: seq<Id>) {
    |list| == |ids| && forall i :: 0 <= i < |list| ==> Is(list[i], m, ids[i])
  }

  ghost predicate Is(group: Group, m: map<Id, Id>, id: Id) { group == Group(id, Sort(IdLeq, GroupMembers(m, id))) }

  ghost function InForceSet(latest: map<Id, Decision>, superseded: set<Id>): set<Decision> {
    set i | i in latest && latest[i].id == i && i !in superseded :: latest[i]
  }

  lemma InForceDistinct(latest: map<Id, Decision>, superseded: set<Id>)
    ensures DistinctIds(InForceSet(latest, superseded)) && Orders(ReplayLeq, InForceSet(latest, superseded))
  {
    ReplayLeqOrders(InForceSet(latest, superseded));
  }

  ghost function ReplayInOrder(latest: map<Id, Decision>, superseded: set<Id>): Replayed {
    InForceDistinct(latest, superseded);
    Replay(Sort(ReplayLeq, InForceSet(latest, superseded)))
  }

  /** What a projection of these decisions is: a failure when supersession has no single answer, and
      else the snapshot of the replay under that answer. */
  ghost predicate Projects(decisions: seq<Decision>, r: Result<Snapshot, ReplayError>) {
    var latest := Latest(decisions);
    if !ExactlyOneFixed(EdgesOf(latest)) then r.Err?
    else r.Ok? && exists superseded :: Fixed(EdgesOf(latest), superseded) && IsSnapshot(latest, superseded, r.value)
  }

  ghost predicate IsSnapshot(latest: map<Id, Decision>, superseded: set<Id>, snapshot: Snapshot) {
    var end := ReplayInOrder(latest, superseded);
    && ListsGroups(snapshot.groups, end.membership)
    && snapshot.blocked == Sort(PairLeq, end.blocked)
    && snapshot.applied == end.applied && snapshot.skipped == end.skipped
    && snapshot.superseded == Sort(IdLeq, superseded)
  }

  /** The projection depends on the decisions, not on the order they are listed in. */
  lemma OrderIndependent(a: seq<Decision>, b: seq<Decision>, r: Result<Snapshot, ReplayError>, q: Result<Snapshot, ReplayError>)
    requires HighestUnique(a) && forall d :: d in a <==> d in b
    requires Projects(a, r) && Projects(b, q)
    ensures r == q
  {
    LatestIgnoresOrder(a, b);
    var latest := Latest(a);
    if ExactlyOneFixed(EdgesOf(latest)) {
      var s :| Fixed(EdgesOf(latest), s) && IsSnapshot(latest, s, r.value);
      var t :| Fixed(EdgesOf(latest), t) && IsSnapshot(latest, t, q.value);
      assert s == t;
      assert forall i :: 0 <= i < |r.value.groups| ==> Is(r.value.groups[i], ReplayInOrder(latest, s).membership, q.value.groups[i].id);
      assert r.value.groups == q.value.groups;
      assert r.value == q.value;
    } else {
      assert r.error.SupersessionCycle? && q.error.SupersessionCycle?;
    }
  }

  method ListGroups(m: map<Id, Id>, groups: map<Id, set<Id>>) returns (list: seq<Group>)
    requires Inverse(m, groups)
    ensures ListsGroups(list, m)
  {
    var large := FindLarge(m, groups);
    var ids := SortSet<Id>(IdLeq, large);
    list := ListMembers(m, groups, ids);
  }

  method ListMembers(m: map<Id, Id>, groups: map<Id, set<Id>>, ids: seq<Id>) returns (list: seq<Group>)
    requires Inverse(m, groups) && forall g :: g in ids ==> g in groups
    ensures Lists(list, m, ids)
  {
    list := [];
    for i := 0 to |ids|
      invariant |list| == i && forall j :: 0 <= j < i ==> Is(list[j], m, ids[j])
    {
      var members := SortSet<Id>(IdLeq, groups[ids[i]]);
      list := list + [Group(ids[i], members)];
    }
  }

  method FindLarge(m: map<Id, Id>, groups: map<Id, set<Id>>) returns (large: set<Id>)
    requires Inverse(m, groups)
    ensures large == LargeGroups(m) && forall g :: g in large ==> g in groups
  {
    large := set g | g in groups && |groups[g]| >= 2;
    LargeByIndex(m, groups);
  }

  lemma LargeByIndex(m: map<Id, Id>, groups: map<Id, set<Id>>)
    requires Inverse(m, groups)
    ensures (set g | g in groups && |groups[g]| >= 2) == LargeGroups(m)
  {
    forall g | g in groups && |groups[g]| >= 2 ensures g in LargeGroups(m) {
      var e :| e in groups[g];
      assert e in GroupMembers(m, g);
    }
  }

  method ReplayAll(ordered: seq<Decision>) returns (registry: Registry)
    requires forall d :: d in ordered ==> d.members != {}
    ensures registry.Valid() && registry.State() == Replay(ordered)
  {
    registry := new Registry();
    for k := 0 to |ordered|
      invariant fresh(registry) && registry.Valid() && registry.State() == Replay(ordered[..k])
    {
      assert ordered[..k + 1][..k] == ordered[..k];
      registry.Apply(ordered[k]);
    }
    assert ordered[..|ordered|] == ordered;
  }

  /** The whole projection. */
  method ProjectGroups(decisions: seq<Decision>) returns (r: Result<Snapshot, ReplayError>)
    requires forall d :: d in decisions ==> d.members != {}
    ensures Projects(decisions, r)
  {
    var found := EffectiveDecisions(decisions);
    if found.Err? { return Err(found.error); }
    ghost var latest := Latest(decisions);
    var superseded := found.value.superseded;
    LatestIsHighest(decisions);
    var ordered := InReplayOrder(latest, superseded, found.value.inForce);
    var registry := ReplayAll(ordered);
    var snapshot := TakeSnapshot(registry, superseded, latest);
    r := Ok(snapshot);
  }

  method InReplayOrder(ghost latest: map<Id, Decision>, ghost superseded: set<Id>, inForce: seq<Decision>) returns (ordered: seq<Decision>)
    requires InForce(latest, superseded, inForce) && forall i :: i in latest ==> latest[i].id == i
    ensures Replay(ordered) == ReplayInOrder(latest, superseded)
    ensures forall d :: d in ordered ==> d in inForce
  {
    InForceDistinct(latest, superseded);
    var all := set d | d in inForce;
    assert all == InForceSet(latest, superseded);
    ordered := SortSet(ReplayLeq, all);
  }

  method TakeSnapshot(registry: Registry, superseded: set<Id>, ghost latest: map<Id, Decision>) returns (snapshot: Snapshot)
    requires registry.Valid() && registry.State() == ReplayInOrder(latest, superseded)
    ensures IsSnapshot(latest, superseded, snapshot)
  {
    var groups := ListGroups(registry.membership, registry.groups);
    var blocked := SortSet(PairLeq, registry.blocked);
    var hidden := SortSet<Id>(IdLeq, superseded);
    snapshot := Snapshot(groups, blocked, registry.applied, registry.skipped, hidden);
  }

  // ---------------------------------------------------------------- undoing a decision

  predicate SameGroups(a: Replayed, b: Replayed) { a.membership == b.membership && a.blocked == b.blocked }

  lemma {:induction false} RejectIsInvisible(before: seq<Decision>, x: Decision, after: seq<Decision>)
    requires x.action.Reject?
    ensures SameGroups(Replay(before + [x] + after), Replay(before + after))
  {
    if after == [] {
      assert before + [x] + after == before + [x] && before + after == before;
      assert (before + [x])[..|before|] == before;
    } else {
      var init, last := after[..|after| - 1], after[|after| - 1];
      RejectIsInvisible(before, x, init);
      assert after == init + [last];
      ReplayOneMore(before + [x], init, last);
      ReplayOneMore(before, init, last);
      SameAfter(Replay(before + [x] + init), Replay(before + init), last);
    }
  }

  lemma ReplayOneMore(before: seq<Decision>, init: seq<Decision>, last: Decision)
    ensures Replay(before + (init + [last])) == After(Replay(before + init), last)
  {
    assert (before + (init + [last]))[..|before| + |init|] == before + init;
  }

  lemma SameAfter(a: Replayed, b: Replayed, d: Decision)
    requires SameGroups(a, b)
    ensures SameGroups(After(a, d), After(b, d))
  {
  }

  /** The history in which the decision was never made, in any version. */
  function Erase(decisions: seq<Decision>, target: Id): seq<Decision> {
    if decisions == [] then []
    else
      var last := decisions[|decisions| - 1];
      Erase(decisions[..|decisions| - 1], target) + if last.id == target then [] else [last]
  }

  lemma {:induction false} LatestErased(decisions: seq<Decision>, target: Id)
    ensures Latest(Erase(decisions, target)) == Latest(decisions) - {target}
  {
    if decisions != [] {
      var init, last := decisions[..|decisions| - 1], decisions[|decisions| - 1];
      LatestErased(init, target);
      if last.id != target {
        assert Erase(decisions, target)[..|Erase(init, target)|] == Erase(init, target);
      } else {
        assert Erase(decisions, target) == Erase(init, target);
      }
    }
  }

  lemma LatestOneMore(decisions: seq<Decision>, x: Decision)
    requires x.id !in Latest(decisions)
    ensures Latest(decisions + [x]) == Latest(decisions)[x.id := x]
  {
    assert (decisions + [x])[..|decisions|] == decisions;
  }

  /** A decision that supersedes nothing leaves the answers as they are. */
  lemma NeutralAnswers(edges: Edges, x: Id, s: set<Id>)
    requires x !in edges
    ensures Fixed(edges[x := None], s) <==> Fixed(edges, s)
  {
    var more := edges[x := None];
    forall t ensures t in Next(more, s) <==> t in Next(edges, s) {
      if t in Next(edges, s) {
        var d :| d in edges && d !in s && edges[d].Some? && edges[d].value == t;
        assert d in more && more[d] == edges[d];
      }
    }
  }

  predicate NewDecision(decisions: seq<Decision>, x: Decision, target: Id) {
    Unknown(EdgesOf(Latest(decisions)), x.id) && x.id != target && x.supersedes == Some(target)
  }

  function Plain(x: Decision): Decision { x.(supersedes := None) }

  /** The two histories to compare: one decision superseded by `x`, or never made and `x` made without
      superseding anything. */
  lemma EdgesCompared(decisions: seq<Decision>, x: Decision, target: Id)
    requires NewDecision(decisions, x, target)
    ensures var edges, latest := EdgesOf(Latest(decisions)), Latest(decisions);
            && Latest(decisions + [x]) == latest[x.id := x]
            && Latest(Erase(decisions, target) + [Plain(x)]) == (latest - {target})[x.id := Plain(x)]
            && EdgesOf(latest[x.id := x]) == With(edges, x.id, target)
            && EdgesOf((latest - {target})[x.id := Plain(x)]) == Erased(edges, target)[x.id := None]
  {
    var latest := Latest(decisions);
    assert x.id !in latest by { assert x.id !in EdgesOf(latest); }
    LatestErased(decisions, target);
    LatestOneMore(decisions, x);
    LatestOneMore(Erase(decisions, target), Plain(x));
  }

  lemma InForceWith(latest: map<Id, Decision>, hidden: set<Id>, x: Decision)
    requires x.id !in latest && x.id !in hidden
    ensures InForceSet(latest[x.id := x], hidden) == InForceSet(latest, hidden) + {x}
  {
    var more := latest[x.id := x];
    forall d | d in InForceSet(latest, hidden) + {x} ensures d in InForceSet(more, hidden) {
      assert d.id in more && more[d.id] == d;
    }
  }

  lemma HiddenErased(latest: map<Id, Decision>, hidden: set<Id>, target: Id)
    ensures InForceSet(latest, hidden + {target}) == InForceSet(latest - {target}, hidden)
  {
    forall d | d in InForceSet(latest, hidden + {target}) ensures d in InForceSet(latest - {target}, hidden) {
      assert d.id in latest - {target};
    }
    forall d | d in InForceSet(latest - {target}, hidden) ensures d in InForceSet(latest, hidden + {target}) {
      assert d.id in latest && d.id !in hidden + {target};
    }
  }

  /** Whom a decision supersedes matters neither for its place in the replay nor for its effect. */
  lemma SamePlace(rest: set<Decision>, x: Decision)
    requires DistinctIds(rest + {x}) && x.id !in (set d | d in rest :: d.id)
    ensures DistinctIds(rest + {Plain(x)})
    ensures Orders(ReplayLeq, rest + {x}) && Orders(ReplayLeq, rest + {Plain(x)})
    ensures Replay(Sort(ReplayLeq, rest + {x})) == Replay(Sort(ReplayLeq, rest + {Plain(x)}))
    ensures exists a, b :: Orders(ReplayLeq, rest) && Sort(ReplayLeq, rest) == a + b && Sort(ReplayLeq, rest + {x}) == a + [x] + b
  {
    ReplayLeqOrders(rest + {x});
    ReplayLeqOrders(rest + {Plain(x)});
    var a, b := SortInsert(ReplayLeq, rest, x);
    StillAscending(a, x, b);
    assert Plain(x) !in rest;
    forall y ensures y in a + [Plain(x)] + b <==> y in rest + {Plain(x)} {
      assert y in a + b <==> y in rest;
    }
    AscendingIsSort(ReplayLeq, rest + {Plain(x)}, a + [Plain(x)] + b);
    SameReplay(a, x, b);
  }

  lemma StillAscending(a: seq<Decision>, x: Decision, b: seq<Decision>)
    requires Ascending(ReplayLeq, a + [x] + b) && Plain(x) !in a + b
    ensures Ascending(ReplayLeq, a + [Plain(x)] + b)
  {
    var q, p := a + [x] + b, a + [Plain(x)] + b;
    forall i, j | 0 <= i < j < |p| ensures ReplayLeq(p[i], p[j]) && p[i] != p[j] {
      assert ReplayLeq(q[i], q[j]) && q[i] != q[j];
      assert (i != |a| ==> p[i] == q[i] && p[i] in a + b) && (j != |a| ==> p[j] == q[j] && p[j] in a + b);
    }
  }

  lemma {:induction false} SameReplay(a: seq<Decision>, x: Decision, b: seq<Decision>)
    ensures Replay(a + [x] + b) == Replay(a + [Plain(x)] + b)
  {
    if b == [] {
      assert a + [x] + b == a + [x] && a + [Plain(x)] + b == a + [Plain(x)];
      assert (a + [x])[..|a|] == a && (a + [Plain(x)])[..|a|] == a;
    } else {
      var init, last := b[..|b| - 1], b[|b| - 1];
      SameReplay(a, x, init);
      assert b == init + [last];
      ReplayOneMore(a + [x], init, last);
      ReplayOneMore(a + [Plain(x)], init, last);
    }
  }

  lemma SameEnd(latest: map<Id, Decision>, g: set<Id>, x: Decision, target: Id)
    requires x.id !in latest && x.id !in g && x.id != target && forall i :: i in latest ==> latest[i].id == i
    ensures ReplayInOrder(latest[x.id := x], g + {target}) == ReplayInOrder((latest - {target})[x.id := Plain(x)], g)
    ensures x.action.Reject? ==>
      SameGroups(ReplayInOrder(latest[x.id := x], g + {target}), ReplayInOrder(latest - {target}, g))
  {
    var rest := InForceSet(latest - {target}, g);
    HiddenErased(latest, g, target);
    InForceWith(latest, g + {target}, x);
    InForceWith(latest - {target}, g, Plain(x));
    InForceDistinct(latest[x.id := x], g + {target});
    InForceDistinct(latest - {target}, g);
    assert x.id !in (set d | d in rest :: d.id);
    SamePlace(rest, x);
    if x.action.Reject? {
      var a, b :| Orders(ReplayLeq, rest) && Sort(ReplayLeq, rest) == a + b && Sort(ReplayLeq, rest + {x}) == a + [x] + b;
      RejectIsInvisible(a, x, b);
    }
  }

  lemma SameGroupsListed(m: map<Id, Id>, a: seq<Group>, b: seq<Group>)
    requires ListsGroups(a, m) && ListsGroups(b, m)
    ensures a == b
  {
    forall i | 0 <= i < |a| ensures a[i] == b[i] {
      assert Is(a[i], m, Sort(IdLeq, LargeGroups(m))[i]) && Is(b[i], m, Sort(IdLeq, LargeGroups(m))[i]);
    }
  }

  /** The one answer with the superseding decision, and what its replay comes to. */
  lemma EndsCompared(decisions: seq<Decision>, x: Decision, target: Id, f: set<Id>, g: set<Id>)
    requires NewDecision(decisions, x, target)
    requires var edges := EdgesOf(Latest(decisions));
             ExactlyOneFixed(With(edges, x.id, target)) && Fixed(With(edges, x.id, target), f) && Fixed(Erased(edges, target), g)
    ensures var latest := Latest(decisions);
            && f == g + {target}
            && ReplayInOrder(latest[x.id := x], f) == ReplayInOrder((latest - {target})[x.id := Plain(x)], g)
            && (x.action.Reject? ==> SameGroups(ReplayInOrder(latest[x.id := x], f), ReplayInOrder(latest - {target}, g)))
  {
    var latest, edges := Latest(decisions), EdgesOf(Latest(decisions));
    ErasedAnswers(edges, g, x.id, target);
    NotPointedAt(Erased(edges, target), g, x.id);
    LatestIsHighest(decisions);
    assert x.id !in latest by { assert x.id !in edges; }
    SameEnd(latest, g, x, target);
  }

  lemma SameAnswers(a: Edges, b: Edges)
    requires forall s :: Fixed(a, s) <==> Fixed(b, s)
    ensures ExactlyOneFixed(a) ==> ExactlyOneFixed(b)
  {
    if ExactlyOneFixed(a) {
      var s :| Fixed(a, s) && forall t :: Fixed(a, t) ==> t == s;
      assert Fixed(b, s);
    }
  }

  lemma NeutralDecision(edges: Edges, x: Id)
    requires x !in edges
    ensures ExactlyOneFixed(edges[x := None]) <==> ExactlyOneFixed(edges)
  {
    var more := edges[x := None];
    forall s ensures Fixed(more, s) <==> Fixed(edges, s) { NeutralAnswers(edges, x, s); }
    SameAnswers(more, edges);
    SameAnswers(edges, more);
  }

  lemma SnapshotsAgree(a: map<Id, Decision>, s: set<Id>, p: Snapshot, b: map<Id, Decision>, t: set<Id>, q: Snapshot)
    requires IsSnapshot(a, s, p) && IsSnapshot(b, t, q) && SameGroups(ReplayInOrder(a, s), ReplayInOrder(b, t))
    ensures p.groups == q.groups && p.blocked == q.blocked
    ensures ReplayInOrder(a, s) == ReplayInOrder(b, t) ==> p == q.(superseded := p.superseded)
  {
    SameGroupsListed(ReplayInOrder(a, s).membership, p.groups, q.groups);
  }

  lemma AnswerOf(decisions: seq<Decision>, snapshot: Snapshot) returns (s: set<Id>)
    requires Projects(decisions, Ok(snapshot))
    ensures Fixed(EdgesOf(Latest(decisions)), s) && IsSnapshot(Latest(decisions), s, snapshot)
  {
    s :| Fixed(EdgesOf(Latest(decisions)), s) && IsSnapshot(Latest(decisions), s, snapshot);
  }

  /** Resolution is reversible. Superseding any decision, whatever it superseded itself, projects
      exactly when the history in which it was never made does, and to the same snapshot: the same
      groups, blocks, applied and skipped decisions, and one more superseded. */
  lemma SupersedingUndoes(decisions: seq<Decision>, x: Decision, target: Id, r: Result<Snapshot, ReplayError>, q: Result<Snapshot, ReplayError>)
    requires NewDecision(decisions, x, target)
    requires Projects(decisions + [x], r) && Projects(Erase(decisions, target) + [Plain(x)], q)
    ensures r.Ok? <==> q.Ok?
    ensures r.Ok? ==> r.value == q.value.(superseded := r.value.superseded)
    ensures r.Ok? ==> forall t :: t in r.value.superseded <==> t in q.value.superseded || t == target
  {
    var edges := EdgesOf(Latest(decisions));
    EdgesCompared(decisions, x, target);
    SupersedingTakesOutOne(edges, x.id, target);
    NeutralDecision(Erased(edges, target), x.id);
    if r.Ok? { UndoneSnapshot(decisions, x, target, r.value, q.value); }
  }

  lemma UndoneSnapshot(decisions: seq<Decision>, x: Decision, target: Id, p: Snapshot, q: Snapshot)
    requires NewDecision(decisions, x, target)
    requires Projects(decisions + [x], Ok(p)) && Projects(Erase(decisions, target) + [Plain(x)], Ok(q))
    ensures p == q.(superseded := p.superseded)
    ensures forall t :: t in p.superseded <==> t in q.superseded || t == target
  {
    EdgesCompared(decisions, x, target);
    var f := AnswerOf(decisions + [x], p);
    var g := AnswerOf(Erase(decisions, target) + [Plain(x)], q);
    NeutralAnswers(Erased(EdgesOf(Latest(decisions)), target), x.id, g);
    EndsCompared(decisions, x, target, f, g);
    SnapshotsAgree(Latest(decisions + [x]), f, p, Latest(Erase(decisions, target) + [Plain(x)]), g, q);
  }

  /** A rejection that supersedes a decision has no other effect than to undo it. */
  lemma RejectingUndoes(decisions: seq<Decision>, x: Decision, target: Id, r: Result<Snapshot, ReplayError>, q: Result<Snapshot, ReplayError>)
    requires NewDecision(decisions, x, target) && x.action.Reject?
    requires Projects(decisions + [x], r) && Projects(Erase(decisions, target), q)
    ensures r.Ok? <==> q.Ok?
    ensures r.Ok? ==> r.value.groups == q.value.groups && r.value.blocked == q.value.blocked
  {
    EdgesCompared(decisions, x, target);
    ErasedEdges(decisions, target);
    SupersedingTakesOutOne(EdgesOf(Latest(decisions)), x.id, target);
    if r.Ok? { RejectedSnapshot(decisions, x, target, r.value, q.value); }
  }

  lemma ErasedEdges(decisions: seq<Decision>, target: Id)
    ensures EdgesOf(Latest(Erase(decisions, target))) == Erased(EdgesOf(Latest(decisions)), target)
  {
    LatestErased(decisions, target);
  }

  lemma RejectedSnapshot(decisions: seq<Decision>, x: Decision, target: Id, p: Snapshot, q: Snapshot)
    requires NewDecision(decisions, x, target) && x.action.Reject?
    requires Projects(decisions + [x], Ok(p)) && Projects(Erase(decisions, target), Ok(q))
    ensures p.groups == q.groups && p.blocked == q.blocked
  {
    EdgesCompared(decisions, x, target);
    ErasedEdges(decisions, target);
    LatestErased(decisions, target);
    var f := AnswerOf(decisions + [x], p);
    var g := AnswerOf(Erase(decisions, target), q);
    EndsCompared(decisions, x, target, f, g);
    SnapshotsAgree(Latest(decisions + [x]), f, p, Latest(Erase(decisions, target)), g, q);
  }
}
