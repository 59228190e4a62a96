/** Bitemporal history: from the versions of one entity to half-open intervals on two time axes. */
module Temporal {
  import opened Common
  import opened Sorting

  datatype Version = Version(number: nat, effectiveAt: int, ingestedAt: int)

  datatype Interval = Interval(validFrom: int, validTo: Option<int>, knownFrom: int, knownTo: Option<int>) {
    /** The interval's own check: no axis runs backwards. */
    predicate Ordered() {
      && (validTo.Some? ==> validFrom <= validTo.value)
      && (knownTo.Some? ==> knownFrom < knownTo.value)
    }

    predicate ValidAt(t: int) { validFrom <= t && (validTo.None? || t < validTo.value) }

    predicate KnownAt(t: int) { knownFrom <= t && (knownTo.None? || t < knownTo.value) }

    predicate Contains(asOfValid: int, asKnown: int) { ValidAt(asOfValid) && KnownAt(asKnown) }
  }

  datatype VersionInterval = VersionInterval(number: nat, interval: Interval)

  datatype HistoryError = DuplicateVersion | BackwardsInterval

  type Axis = Version -> int

  const EFFECTIVE: Axis := (v: Version) => v.effectiveAt
  const INGESTED: Axis := (v: Version) => v.ingestedAt

  predicate UniqueNumbers(versions: seq<Version>) {
    forall i, j :: 0 <= i < j < |versions| ==> versions[i].number != versions[j].number
  }

  ghost predicate NumbersTell(s: set<Version>) { forall v, w :: v in s && w in s && v.number == w.number ==> v == w }

  /** The least value of the axis above `current`, if there is any. */
  ghost predicate NextLater(versions: seq<Version>, axis: Axis, current: int, next: Option<int>) {
    match next
    case None => forall v :: v in versions ==> axis(v) <= current
    case Some(t) =>
      && t > current && (exists v :: v in versions && axis(v) == t)
      && (forall v :: v in versions && axis(v) > current ==> axis(v) >= t)
  }

  function AlongAxis(axis: Axis): (Version, Version) -> bool {
    (v, w) => axis(v) < axis(w) || (axis(v) == axis(w) && v.number <= w.number)
  }

  function ByNumber(v: Version, w: Version): bool { v.number <= w.number }

  lemma BothOrders(axis: Axis, s: set<Version>)
    requires NumbersTell(s)
    ensures Orders(AlongAxis(axis), s) && Orders(ByNumber, s)
  {
  }

  ghost predicate Answered(versions: seq<Version>, axis: Axis, v: Version, result: map<nat, Option<int>>) {
    v.number in result && NextLater(versions, axis, axis(v), result[v.number])
  }

  /** For each version, by number, the nearest strictly later value of the axis among the others. */
  method NextStrictlyLater(versions: seq<Version>, axis: Axis) returns (result: map<nat, Option<int>>)
    requires UniqueNumbers(versions)
    ensures forall v :: v in versions ==> Answered(versions, axis, v, result)
  {
    var ordered := SortAlong(versions, axis);
    result := map[];
    for index := 0 to |ordered|
      invariant forall i :: 0 <= i < index ==> Answered(versions, axis, ordered[i], result)
    {
      var next := FirstAbove(ordered, axis, index + 1, axis(ordered[index]));
      FirstAboveIsNext(versions, ordered, axis, index, next);
      result := result[ordered[index].number := next];
    }
    forall v | v in versions ensures Answered(versions, axis, v, result) {
      assert v in ordered;
      var i :| 0 <= i < |ordered| && ordered[i] == v;
    }
  }

  method SortAlong(versions: seq<Version>, axis: Axis) returns (ordered: seq<Version>)
    requires UniqueNumbers(versions)
    ensures Ascending(AlongAxis(axis), ordered) && forall v :: v in ordered <==> v in versions
    ensures forall i, j :: 0 <= i < j < |ordered| ==> ordered[i].number != ordered[j].number
  {
    var all := set v | v in versions;
    NumbersAreUnique(versions);
    BothOrders(axis, all);
    ordered := SortSet(AlongAxis(axis), all);
    forall i, j | 0 <= i < j < |ordered| ensures ordered[i].number != ordered[j].number {
      assert ordered[i] in all && ordered[j] in all;
    }
  }

  /** Nothing from `start` up to index `n` is above `current`. */
  ghost predicate NoneAbove(ordered: seq<Version>, axis: Axis, start: nat, n: nat, current: int) {
    forall j :: start <= j < n && j < |ordered| ==> axis(ordered[j]) <= current
  }

  ghost predicate FirstFrom(ordered: seq<Version>, axis: Axis, start: nat, current: int, next: Option<int>) {
    match next
    case None => NoneAbove(ordered, axis, start, |ordered|, current)
    case Some(t) =>
      && t > current
      && exists i :: start <= i < |ordered| && axis(ordered[i]) == t && NoneAbove(ordered, axis, start, i, current)
  }

  method FirstAbove(ordered: seq<Version>, axis: Axis, from: nat, current: int) returns (next: Option<int>)
    requires from <= |ordered|
    ensures FirstFrom(ordered, axis, from, current, next)
  {
    for i := from to |ordered|
      invariant forall j :: from <= j < i ==> axis(ordered[j]) <= current
    {
      if axis(ordered[i]) > current { return Some(axis(ordered[i])); }
    }
    next := None;
  }

  lemma FirstAboveIsNext(versions: seq<Version>, ordered: seq<Version>, axis: Axis, index: nat, next: Option<int>)
    requires index < |ordered| && Ascending(AlongAxis(axis), ordered) && forall v :: v in ordered <==> v in versions
    requires FirstFrom(ordered, axis, index + 1, axis(ordered[index]), next)
    ensures NextLater(versions, axis, axis(ordered[index]), next)
  {
    var current := axis(ordered[index]);
    assert forall i :: 0 <= i < index ==> AlongAxis(axis)(ordered[i], ordered[index]);
    match next
    case None =>
      forall v | v in versions ensures axis(v) <= current {
        assert v in ordered;
        var i :| 0 <= i < |ordered| && ordered[i] == v;
      }
    case Some(t) =>
      var n :| index + 1 <= n < |ordered| && axis(ordered[n]) == t && NoneAbove(ordered, axis, index + 1, n, current);
      assert ordered[n] in versions;
      forall v | v in versions && axis(v) > current ensures axis(v) >= t {
        assert v in ordered;
        var i :| 0 <= i < |ordered| && ordered[i] == v;
        assert i > n ==> AlongAxis(axis)(ordered[n], ordered[i]);
      }
  }

  lemma NumbersAreUnique(versions: seq<Version>)
    requires UniqueNumbers(versions)
    ensures NumbersTell(set v | v in versions)
  {
  }

  // ---------------------------------------------------------------- the intervals

  /** The interval of a version reaches, on each axis, from its own time to the next later one. */
  ghost predicate Describes(versions: seq<Version>, v: Version, e: VersionInterval) {
    && e.number == v.number
    && e.interval.validFrom == v.effectiveAt && NextLater(versions, EFFECTIVE, v.effectiveAt, e.interval.validTo)
    && e.interval.knownFrom == v.ingestedAt && NextLater(versions, INGESTED, v.ingestedAt, e.interval.knownTo)
  }

  /** One interval per version, in the order of the version numbers. */
  ghost predicate Builds(versions: seq<Version>, list: seq<VersionInterval>)
    requires UniqueNumbers(versions)
  {
    NumbersAreUnique(versions);
    BothOrders(EFFECTIVE, set v | v in versions);
    var ordered := Sort(ByNumber, set v | v in versions);
    |list| == |ordered| && forall i :: 0 <= i < |list| ==> Describes(versions, ordered[i], list[i])
  }

  /** Fails exactly on a repeated version number; the interval check never fires. */
  method BuildIntervals(versions: seq<Version>) returns (r: Result<seq<VersionInterval>, HistoryError>)
    ensures r.Ok? <==> UniqueNumbers(versions)
    ensures r.Ok? ==> Builds(versions, r.value)
    ensures r.Err? ==> r.error.DuplicateVersion?
  {
    var unique := AllUnique(versions);
    if !unique { return Err(DuplicateVersion); }
    var validTo := NextStrictlyLater(versions, EFFECTIVE);
    var knownTo := NextStrictlyLater(versions, INGESTED);
    NumbersAreUnique(versions);
    BothOrders(EFFECTIVE, set v | v in versions);
    var all := set v | v in versions;
    var ordered := SortSet(ByNumber, all);
    r := Assemble(versions, ordered, validTo, knownTo);
  }

  method Assemble(versions: seq<Version>, ordered: seq<Version>, validTo: map<nat, Option<int>>, knownTo: map<nat, Option<int>>)
    returns (r: Result<seq<VersionInterval>, HistoryError>)
    requires forall v :: v in ordered ==>
      Answered(versions, EFFECTIVE, v, validTo) && Answered(versions, INGESTED, v, knownTo)
    ensures r.Ok? && |r.value| == |ordered| && forall i :: 0 <= i < |ordered| ==> Describes(versions, ordered[i], r.value[i])
  {
    var list: seq<VersionInterval> := [];
    for i := 0 to |ordered|
      invariant |list| == i && forall j :: 0 <= j < i ==> Describes(versions, ordered[j], list[j])
    {
      var v := ordered[i];
      assert Answered(versions, EFFECTIVE, v, validTo) && Answered(versions, INGESTED, v, knownTo);
      var interval := Interval(v.effectiveAt, validTo[v.number], v.ingestedAt, knownTo[v.number]);
      if !interval.Ordered() { return Err(BackwardsInterval); }
      list := list + [VersionInterval(v.number, interval)];
    }
    r := Ok(list);
  }

  method AllUnique(versions: seq<Version>) returns (unique: bool)
    ensures unique <==> UniqueNumbers(versions)
  {
    var numbers: set<nat> := {};
    for i := 0 to |versions|
      invariant forall n :: n in numbers <==> exists j :: 0 <= j < i && versions[j].number == n
      invariant UniqueNumbers(versions[..i])
    {
      if versions[i].number in numbers {
        var j :| 0 <= j < i && versions[j].number == versions[i].number;
        return false;
      }
      numbers := numbers + {versions[i].number};
      assert forall j :: 0 <= j < i ==> versions[..i + 1][j] == versions[..i][j];
    }
    assert versions[..|versions|] == versions;
    unique := true;
  }

  // ---------------------------------------------------------------- what the intervals mean

  /** `t0` is the greatest value of the axis that is not after `t`. */
  ghost predicate Latest(versions: seq<Version>, axis: Axis, t0: int, t: int) {
    t0 <= t && forall v :: v in versions && axis(v) <= t ==> axis(v) <= t0
  }

  /** A version is valid at a time exactly when its effective time is the greatest that is not later,
      and known at a time likewise by its ingestion time. */
  lemma ValidExactlyWhenLatest(versions: seq<Version>, v: Version, e: VersionInterval, t: int)
    requires v in versions && Describes(versions, v, e)
    ensures e.interval.ValidAt(t) <==> Latest(versions, EFFECTIVE, v.effectiveAt, t)
    ensures e.interval.KnownAt(t) <==> Latest(versions, INGESTED, v.ingestedAt, t)
  {
    AxisExactlyWhenLatest(versions, EFFECTIVE, v.effectiveAt, e.interval.validTo, t);
    AxisExactlyWhenLatest(versions, INGESTED, v.ingestedAt, e.interval.knownTo, t);
  }

  lemma AxisExactlyWhenLatest(versions: seq<Version>, axis: Axis, from: int, to: Option<int>, t: int)
    requires NextLater(versions, axis, from, to)
    ensures (from <= t && (to.None? || t < to.value)) <==> Latest(versions, axis, from, t)
  {
    if to.Some? {
      var n :| n in versions && axis(n) == to.value;
      assert t >= to.value ==> axis(n) <= t;
    }
  }

  lemma {:induction false} LatestExists(versions: seq<Version>, axis: Axis, t: int, w: Version) returns (v: Version)
    requires w in versions && axis(w) <= t
    ensures v in versions && Latest(versions, axis, axis(v), t)
    decreases |versions|
  {
    var init, last := versions[..|versions| - 1], versions[|versions| - 1];
    assert forall x :: x in versions <==> x in init || x == last;
    if exists x :: x in init && axis(x) <= t {
      var x :| x in init && axis(x) <= t;
      var best := LatestExists(init, axis, t, x);
      v := if axis(last) <= t && axis(last) > axis(best) then last else best;
    } else {
      v := last;
    }
  }

  lemma EntryOf(versions: seq<Version>, list: seq<VersionInterval>, v: Version) returns (i: nat)
    requires UniqueNumbers(versions) && Builds(versions, list) && v in versions
    ensures i < |list| && Describes(versions, v, list[i])
  {
    NumbersAreUnique(versions);
    BothOrders(EFFECTIVE, set w | w in versions);
    var ordered := Sort(ByNumber, set w | w in versions);
    assert v in ordered;
    i :| 0 <= i < |ordered| && ordered[i] == v;
  }

  lemma VersionOf(versions: seq<Version>, list: seq<VersionInterval>, i: nat) returns (v: Version)
    requires UniqueNumbers(versions) && Builds(versions, list) && i < |list|
    ensures v in versions && Describes(versions, v, list[i])
  {
    NumbersAreUnique(versions);
    BothOrders(EFFECTIVE, set w | w in versions);
    v := Sort(ByNumber, set w | w in versions)[i];
    assert v in Sort(ByNumber, set w | w in versions);
  }

  /** On each axis the intervals cover exactly what is not before the first version, and intervals that
      share a time share their start: they tile the axis. */
  lemma IntervalsTile(versions: seq<Version>, list: seq<VersionInterval>, t: int)
    requires UniqueNumbers(versions) && Builds(versions, list)
    ensures (exists i :: 0 <= i < |list| && list[i].interval.ValidAt(t)) <==> exists v :: v in versions && v.effectiveAt <= t
    ensures (exists i :: 0 <= i < |list| && list[i].interval.KnownAt(t)) <==> exists v :: v in versions && v.ingestedAt <= t
    ensures forall i, j :: 0 <= i < |list| && 0 <= j < |list| && list[i].interval.ValidAt(t) && list[j].interval.ValidAt(t) ==>
      list[i].interval.validFrom == list[j].interval.validFrom && list[i].interval.validTo == list[j].interval.validTo
    ensures forall i, j :: 0 <= i < |list| && 0 <= j < |list| && list[i].interval.KnownAt(t) && list[j].interval.KnownAt(t) ==>
      list[i].interval.knownFrom == list[j].interval.knownFrom && list[i].interval.knownTo == list[j].interval.knownTo
  {
    Covered(versions, list, t);
    forall i, j | 0 <= i < |list| && 0 <= j < |list|
      ensures list[i].interval.ValidAt(t) && list[j].interval.ValidAt(t) ==>
        list[i].interval.validFrom == list[j].interval.validFrom && list[i].interval.validTo == list[j].interval.validTo
      ensures list[i].interval.KnownAt(t) && list[j].interval.KnownAt(t) ==>
        list[i].interval.knownFrom == list[j].interval.knownFrom && list[i].interval.knownTo == list[j].interval.knownTo
    {
      SameTileSameTimes(versions, list, i, j, t);
    }
  }

  lemma Covered(versions: seq<Version>, list: seq<VersionInterval>, t: int)
    requires UniqueNumbers(versions) && Builds(versions, list)
    ensures (exists i :: 0 <= i < |list| && list[i].interval.ValidAt(t)) <==> exists v :: v in versions && v.effectiveAt <= t
    ensures (exists i :: 0 <= i < |list| && list[i].interval.KnownAt(t)) <==> exists v :: v in versions && v.ingestedAt <= t
  {
    if w :| w in versions && w.effectiveAt <= t {
      var v := LatestExists(versions, EFFECTIVE, t, w);
      var i := EntryOf(versions, list, v);
      ValidExactlyWhenLatest(versions, v, list[i], t);
    }
    if w :| w in versions && w.ingestedAt <= t {
      var v := LatestExists(versions, INGESTED, t, w);
      var i := EntryOf(versions, list, v);
      ValidExactlyWhenLatest(versions, v, list[i], t);
    }
    forall i | 0 <= i < |list|
      ensures list[i].interval.ValidAt(t) ==> exists v :: v in versions && v.effectiveAt <= t
      ensures list[i].interval.KnownAt(t) ==> exists v :: v in versions && v.ingestedAt <= t
    {
      var v := VersionOf(versions, list, i);
    }
  }

  lemma SameTileSameTimes(versions: seq<Version>, list: seq<VersionInterval>, i: nat, j: nat, t: int)
    requires UniqueNumbers(versions) && Builds(versions, list) && i < |list| && j < |list|
    ensures list[i].interval.ValidAt(t) && list[j].interval.ValidAt(t) ==>
      list[i].interval.validFrom == list[j].interval.validFrom && list[i].interval.validTo == list[j].interval.validTo
    ensures list[i].interval.KnownAt(t) && list[j].interval.KnownAt(t) ==>
      list[i].interval.knownFrom == list[j].interval.knownFrom && list[i].interval.knownTo == list[j].interval.knownTo
  {
    var v := VersionOf(versions, list, i);
    var w := VersionOf(versions, list, j);
    ValidExactlyWhenLatest(versions, v, list[i], t);
    ValidExactlyWhenLatest(versions, w, list[j], t);
    assert EFFECTIVE(v) == v.effectiveAt && EFFECTIVE(w) == w.effectiveAt;
    assert INGESTED(v) == v.ingestedAt && INGESTED(w) == w.ingestedAt;
    if v.effectiveAt == w.effectiveAt { NextIsUnique(versions, EFFECTIVE, v.effectiveAt, list[i].interval.validTo, list[j].interval.validTo); }
    if v.ingestedAt == w.ingestedAt { NextIsUnique(versions, INGESTED, v.ingestedAt, list[i].interval.knownTo, list[j].interval.knownTo); }
  }

  lemma NextIsUnique(versions: seq<Version>, axis: Axis, current: int, a: Option<int>, b: Option<int>)
    requires NextLater(versions, axis, current, a) && NextLater(versions, axis, current, b)
    ensures a == b
  {
    if a.Some? {
      var v :| v in versions && axis(v) == a.value;
      assert axis(v) > current;
    }
    if b.Some? {
      var w :| w in versions && axis(w) == b.value;
      assert axis(w) > current;
    }
  }

  /** Two versions in force at the same point of both axes agree on both of their times. */
  lemma SamePointSameTimes(versions: seq<Version>, list: seq<VersionInterval>, i: nat, j: nat, asOfValid: int, asKnown: int)
    requires UniqueNumbers(versions) && Builds(versions, list) && i < |list| && j < |list|
    requires list[i].interval.Contains(asOfValid, asKnown) && list[j].interval.Contains(asOfValid, asKnown)
    ensures list[i].interval == list[j].interval
  {
    SameTileSameTimes(versions, list, i, j, asOfValid);
    SameTileSameTimes(versions, list, i, j, asKnown);
  }

  /** The order of the input does not matter. */
  lemma OrderIrrelevant(a: seq<Version>, b: seq<Version>, la: seq<VersionInterval>, lb: seq<VersionInterval>)
    requires UniqueNumbers(a) && UniqueNumbers(b) && forall v :: v in a <==> v in b
    requires Builds(a, la) && Builds(b, lb)
    ensures la == lb
  {
    assert (set v | v in a) == (set v | v in b);
    NumbersAreUnique(a);
    BothOrders(EFFECTIVE, set v | v in a);
    var ordered := Sort(ByNumber, set v | v in a);
    forall i | 0 <= i < |la| ensures la[i] == lb[i] {
      assert Describes(a, ordered[i], la[i]) && Describes(b, ordered[i], lb[i]);
      NextOfSame(a, b, EFFECTIVE, ordered[i].effectiveAt, lb[i].interval.validTo);
      NextOfSame(a, b, INGESTED, ordered[i].ingestedAt, lb[i].interval.knownTo);
      NextIsUnique(a, EFFECTIVE, ordered[i].effectiveAt, la[i].interval.validTo, lb[i].interval.validTo);
      NextIsUnique(a, INGESTED, ordered[i].ingestedAt, la[i].interval.knownTo, lb[i].interval.knownTo);
    }
  }

  lemma NextOfSame(a: seq<Version>, b: seq<Version>, axis: Axis, current: int, next: Option<int>)
    requires (forall v :: v in a <==> v in b) && NextLater(b, axis, current, next)
    ensures NextLater(a, axis, current, next)
  {
    if next.Some? {
      var v :| v in b && axis(v) == next.value;
      assert v in a;
    }
  }
}
